/** The maze of `src/bin/10.rs` and part one, the furthest point of the loop.

    From the start cell, `furthest_point_in_loop` sends a walker across each of the four
    edges and advances them in breadth-first order, one pipe at a time. Walk `d` after `k`
    pipes is `WalkAt(m, d, k)`; a walk ends when it reaches a cell whose pipe does not
    continue it, and it would leave the grid (a panic in the source) if it crossed the
    border. The search stops at the first cell that a walker reaches a second time. */
module Day10Maze {
  import opened Wrappers
  import opened Day10Pipes

  /** `Maze`: the start cell and the pipe of every cell, row by row. */
  datatype Maze = Maze(start: nat, grid: seq<Option<Pipe>>)

  predicate ValidMaze(m: Maze)
  {
    |m.grid| == CELLS && m.start < CELLS
  }

  /** Where a walker is: on an edge of a cell, stopped, or off the grid. */
  datatype Walk = At(edge: EdgePosition) | Ended | Escaped

  /** Crossing to the neighbouring cell, which must exist. */
  function Cross(e: EdgePosition): (w: Walk)
    ensures w.At? <==> CanCross(e) && CrossEdge(e).pos < CELLS
    ensures w.At? ==> w.edge == CrossEdge(e) && w.edge.pos < CELLS
    ensures !w.Ended?
  {
    if CanCross(e) && CrossEdge(e).pos < CELLS then At(CrossEdge(e)) else Escaped
  }

  /** Following the pipe of the current cell to its other end and crossing that edge. */
  function Advance(m: Maze, e: EdgePosition): Walk
    requires ValidMaze(m) && e.pos < CELLS
  {
    match m.grid[e.pos]
    case None => Ended
    case Some(pipe) =>
      match TraversePipe(e, pipe)
      case None => Ended
      case Some(t) => Cross(t)
  }

  /** The walker sent across edge `d` of the start cell, after `k` pipes. */
  function Trail(m: Maze, d: Direction, k: nat): (w: Walk)
    requires ValidMaze(m)
    ensures w.At? ==> w.edge.pos < CELLS && w.edge.steps == k
  {
    if k == 0 then Cross(EdgePosition(m.start, d, 0))
    else
      var previous := Trail(m, d, k - 1);
      if previous.At? then Advance(m, previous.edge) else previous
  }

  /** `Trail`, under a name that the quantifiers below mention: unfolding it does not produce
      another term of the same name. */
  function WalkAt(m: Maze, d: Direction, k: nat): (w: Walk)
    requires ValidMaze(m)
    ensures w.At? ==> w.edge.pos < CELLS && w.edge.steps == k
  {
    Trail(m, d, k)
  }

  /** A walker in the grid moves on by the pipe of its cell. */
  lemma WalkNext(m: Maze, d: Direction, k: nat, e: EdgePosition)
    requires ValidMaze(m) && WalkAt(m, d, k) == At(e)
    ensures WalkAt(m, d, k + 1) == Advance(m, e)
  {
  }

  /** A walker that is still walking has been walking all along. */
  lemma {:induction false} WalkedBefore(m: Maze, d: Direction, j: nat, k: nat)
    requires ValidMaze(m) && j <= k && WalkAt(m, d, k).At?
    ensures WalkAt(m, d, j).At?
    decreases k
  {
    if j < k {
      assert WalkAt(m, d, k - 1).At?;
      WalkedBefore(m, d, j, k - 1);
    }
  }

  /** A walker that stopped stays stopped. */
  lemma {:induction false} StaysEnded(m: Maze, d: Direction, j: nat, k: nat)
    requires ValidMaze(m) && j <= k && WalkAt(m, d, j).Ended?
    ensures WalkAt(m, d, k).Ended?
    decreases k - j
  {
    if j < k {
      StaysEnded(m, d, j + 1, k);
    }
  }

  /** A walker leaves the grid (a panic in the source, on the subtraction or on the index)
      only after two walkers have met at fewer pipes, so that the search has already
      returned before it would pop that walker. */
  ghost predicate EscapesAfterMeeting(m: Maze)
  {
    ValidMaze(m)
    && forall d, k: nat :: WalkAt(m, d, k).Escaped? ==>
         exists d1, k1: nat, d2, k2: nat :: k1 < k && k2 < k && Meet(m, d1, k1, d2, k2)
  }

  /** The walker sent across edge `d` stops at some point. */
  ghost predicate Stops(m: Maze, d: Direction)
    requires ValidMaze(m)
  {
    exists k: nat :: WalkAt(m, d, k).Ended?
  }

  /** Two different walker positions, after at least one pipe each, in the same cell. */
  ghost predicate Meet(m: Maze, d1: Direction, k1: nat, d2: Direction, k2: nat)
  {
    ValidMaze(m) && (d1 != d2 || k1 != k2) && 1 <= k1 && 1 <= k2
    && WalkAt(m, d1, k1).At? && WalkAt(m, d2, k2).At?
    && WalkAt(m, d1, k1).edge.pos == WalkAt(m, d2, k2).edge.pos
  }

  /** The first meeting happens after `n` pipes: some walker after `n` pipes is in a cell
      that a walker reached after at most `n` pipes, and no two walkers meet earlier. */
  ghost predicate FirstMeeting(m: Maze, n: nat)
  {
    (exists d1, k1: nat, d2 :: k1 <= n && Meet(m, d1, k1, d2, n))
    && forall d1, k1: nat, d2, k2: nat :: k1 < n && k2 < n ==> !Meet(m, d1, k1, d2, k2)
  }

  // ---------------------------------------------------------------------------------------
  // The search

  function CountFalse(s: seq<bool>): (n: nat)
    ensures n <= |s|
  {
    if s == [] then 0 else CountFalse(s[..|s| - 1]) + (if s[|s| - 1] then 0 else 1)
  }

  lemma {:induction false} CountFalseSet(s: seq<bool>, i: nat)
    requires i < |s| && !s[i]
    ensures CountFalse(s[i := true]) == CountFalse(s) - 1
    decreases |s|
  {
    var t := s[i := true];
    if i < |s| - 1 {
      assert t[..|t| - 1] == s[..|s| - 1][i := true];
      CountFalseSet(s[..|s| - 1], i);
    } else {
      assert t[..|t| - 1] == s[..|s| - 1];
    }
  }

  /** How many pipes each walker has gone. */
  datatype Reach = Reach(north: nat, east: nat, south: nat, west: nat)
  {
    function Get(d: Direction): nat
    {
      match d
      case North => north
      case East => east
      case South => south
      case West => west
    }

    function Set(d: Direction, n: nat): (r: Reach)
      ensures r.Get(d) == n && forall e :: e != d ==> r.Get(e) == Get(e)
    {
      match d
      case North => this.(north := n)
      case East => this.(east := n)
      case South => this.(south := n)
      case West => this.(west := n)
    }
  }

  /** The cell of walker `d` after `j` pipes, or `CELLS`, outside the grid, once it is not
      walking. */
  function CellOf(m: Maze, d: Direction, j: nat): (c: nat)
    requires ValidMaze(m)
    ensures c < CELLS <==> WalkAt(m, d, j).At?
  {
    if WalkAt(m, d, j).At? then WalkAt(m, d, j).edge.pos else CELLS
  }

  /** How many of the first `n` pipes of walker `d` lead into cell `c`. */
  function Count(m: Maze, d: Direction, n: nat, c: nat): nat
    requires ValidMaze(m)
  {
    if n == 0 then 0 else Count(m, d, n - 1, c) + (if CellOf(m, d, n) == c then 1 else 0)
  }

  /** How many times cell `c` has been marked, by all four walkers. */
  function Marks(m: Maze, reach: Reach, c: nat): nat
    requires ValidMaze(m)
  {
    Count(m, North, reach.north, c) + Count(m, East, reach.east, c)
    + Count(m, South, reach.south, c) + Count(m, West, reach.west, c)
  }

  /** One more pipe for walker `d` marks its next cell once more and no other cell. */
  lemma MarksGrow(m: Maze, reach: Reach, d: Direction, c: nat)
    requires ValidMaze(m)
    ensures Marks(m, reach.Set(d, reach.Get(d) + 1), c)
            == Marks(m, reach, c) + (if CellOf(m, d, reach.Get(d) + 1) == c then 1 else 0)
  {
    assert Count(m, d, reach.Get(d) + 1, c)
           == Count(m, d, reach.Get(d), c) + (if CellOf(m, d, reach.Get(d) + 1) == c then 1 else 0);
  }

  /** A cell walker `d` has reached within `n` pipes is counted. */
  lemma {:induction false} CountHas(m: Maze, d: Direction, n: nat, j: nat)
    requires ValidMaze(m) && 1 <= j <= n
    ensures Count(m, d, n, CellOf(m, d, j)) >= 1
  {
    if j < n {
      CountHas(m, d, n - 1, j);
    }
  }

  /** A cell walker `d` has reached twice within `n` pipes is counted twice. */
  lemma {:induction false} CountTwice(m: Maze, d: Direction, n: nat, j1: nat, j2: nat)
    requires ValidMaze(m) && 1 <= j1 < j2 <= n && CellOf(m, d, j1) == CellOf(m, d, j2)
    ensures Count(m, d, n, CellOf(m, d, j1)) >= 2
  {
    if j2 < n {
      CountTwice(m, d, n - 1, j1, j2);
    } else {
      CountHas(m, d, n - 1, j1);
    }
  }

  /** A counted cell was reached by walker `d` within `n` pipes. */
  lemma {:induction false} CountBy(m: Maze, d: Direction, n: nat, c: nat) returns (j: nat)
    requires ValidMaze(m) && Count(m, d, n, c) > 0
    ensures 1 <= j <= n && CellOf(m, d, j) == c
  {
    if CellOf(m, d, n) == c {
      j := n;
    } else {
      j := CountBy(m, d, n - 1, c);
    }
  }

  /** A cell that two different walker positions have marked is counted twice. */
  lemma MarkedTwice(m: Maze, reach: Reach, d1: Direction, j1: nat, d2: Direction, j2: nat)
    requires ValidMaze(m) && 1 <= j1 <= reach.Get(d1) && 1 <= j2 <= reach.Get(d2) && (d1 != d2 || j1 != j2)
    requires CellOf(m, d1, j1) == CellOf(m, d2, j2)
    ensures Marks(m, reach, CellOf(m, d1, j1)) >= 2
  {
    if d1 != d2 {
      CountHas(m, d1, reach.Get(d1), j1);
      CountHas(m, d2, reach.Get(d2), j2);
    } else if j1 < j2 {
      CountTwice(m, d1, reach.Get(d1), j1, j2);
    } else {
      CountTwice(m, d1, reach.Get(d1), j2, j1);
    }
  }

  /** A marked cell was reached by some walker position. */
  lemma MarkedBy(m: Maze, reach: Reach, c: nat) returns (d: Direction, j: nat)
    requires ValidMaze(m) && Marks(m, reach, c) > 0
    ensures 1 <= j <= reach.Get(d) && CellOf(m, d, j) == c
  {
    d := if Count(m, North, reach.north, c) > 0 then North
         else if Count(m, East, reach.east, c) > 0 then East
         else if Count(m, South, reach.south, c) > 0 then South
         else West;
    j := CountBy(m, d, reach.Get(d), c);
  }

  /** Walker `d` has gone `reach.Get(d)` pipes; it is either waiting in the queue, once, or
      has stopped. */
  ghost predicate Queued(m: Maze, queue: seq<EdgePosition>, dirs: seq<Direction>, reach: Reach)
    requires ValidMaze(m)
  {
    |dirs| == |queue|
    && (forall i :: 0 <= i < |queue| ==> WalkAt(m, dirs[i], reach.Get(dirs[i])) == At(queue[i]))
    && (forall i, j :: 0 <= i < j < |dirs| ==> dirs[i] != dirs[j])
    && (forall d :: WalkAt(m, d, reach.Get(d)).At?)
    && (forall d :: d in dirs || WalkAt(m, d, reach.Get(d) + 1).Ended?)
  }

  /** The queue is ordered by the number of pipes, which spans at most two consecutive
      values, `level` and `level + 1`; no walker has gone further. */
  predicate Levels(dirs: seq<Direction>, reach: Reach, level: nat)
  {
    (forall i :: 0 <= i < |dirs| ==> level <= reach.Get(dirs[i]) <= level + 1)
    && (forall i, j :: 0 <= i < j < |dirs| ==> reach.Get(dirs[i]) <= reach.Get(dirs[j]))
    && (forall d :: reach.Get(d) <= level + 1)
  }

  /** The cells marked on the grid are the cells the walkers have reached, each reached once. */
  ghost predicate MarkedOnce(m: Maze, reach: Reach, visited: seq<bool>)
    requires ValidMaze(m)
  {
    |visited| == CELLS
    && (forall c :: 0 <= c < CELLS ==> (visited[c] <==> Marks(m, reach, c) > 0))
    && (forall c :: Marks(m, reach, c) <= 1)
  }

  /** The state of the search: the walkers, their order, and the marked cells, each marked
      once. */
  ghost predicate Explored(m: Maze, queue: seq<EdgePosition>, dirs: seq<Direction>, reach: Reach,
                           visited: seq<bool>, level: nat)
  {
    EscapesAfterMeeting(m)
    && Queued(m, queue, dirs, reach)
    && Levels(dirs, reach, level)
    && MarkedOnce(m, reach, visited)
  }

  lemma ExploredInitially(m: Maze, queue: seq<EdgePosition>)
    requires EscapesAfterMeeting(m) && |queue| == 4
    requires forall i :: 0 <= i < 4 ==> WalkAt(m, COMPASS[i], 0) == At(queue[i])
    ensures Explored(m, queue, COMPASS, Reach(0, 0, 0, 0), seq(CELLS, _ => false), 0)
  {
    var reach := Reach(0, 0, 0, 0);
    var visited: seq<bool> := seq(CELLS, _ => false);
    forall d
      ensures WalkAt(m, d, reach.Get(d)).At? && d in COMPASS
    {
      assert COMPASS[IndexOf(d)] == d;
    }
    assert forall c :: 0 <= c < CELLS ==> !visited[c];
  }

  /** Popping a walker that stops. */
  lemma ExploredEnded(m: Maze, queue: seq<EdgePosition>, dirs: seq<Direction>, reach: Reach,
                      visited: seq<bool>, level: nat)
    requires Explored(m, queue, dirs, reach, visited, level) && queue != []
    requires WalkAt(m, dirs[0], reach.Get(dirs[0]) + 1).Ended?
    ensures Explored(m, queue[1..], dirs[1..], reach, visited, reach.Get(dirs[0]))
  {
    var k := reach.Get(dirs[0]);
    forall i | 0 <= i < |dirs| - 1
      ensures k <= reach.Get(dirs[1..][i]) <= k + 1
    {
      assert dirs[1..][i] == dirs[i + 1];
    }
    forall d
      ensures d in dirs[1..] || WalkAt(m, d, reach.Get(d) + 1).Ended?
    {
      if d != dirs[0] && d in dirs {
        var i :| 0 <= i < |dirs| && dirs[i] == d;
        assert dirs[1..][i - 1] == d;
      }
    }
  }

  /** Popping a walker that moves on into a cell not marked yet. */
  lemma ExploredMoved(m: Maze, queue: seq<EdgePosition>, dirs: seq<Direction>, reach: Reach,
                      visited: seq<bool>, level: nat, next: EdgePosition)
    requires Explored(m, queue, dirs, reach, visited, level) && queue != []
    requires WalkAt(m, dirs[0], reach.Get(dirs[0]) + 1) == At(next) && !visited[next.pos]
    ensures var d, k := dirs[0], reach.Get(dirs[0]);
            Explored(m, queue[1..] + [next], dirs[1..] + [d], reach.Set(d, k + 1), visited[next.pos := true], k)
  {
    QueuedMoved(m, queue, dirs, reach, level, next);
    MarkedMoved(m, reach, visited, dirs[0], next);
  }

  /** Marking the next cell of walker `d`, not marked yet, keeps every cell marked once. */
  lemma MarkedMoved(m: Maze, reach: Reach, visited: seq<bool>, d: Direction, next: EdgePosition)
    requires ValidMaze(m) && MarkedOnce(m, reach, visited)
    requires WalkAt(m, d, reach.Get(d) + 1) == At(next) && !visited[next.pos]
    ensures MarkedOnce(m, reach.Set(d, reach.Get(d) + 1), visited[next.pos := true])
  {
    var reach' := reach.Set(d, reach.Get(d) + 1);
    assert CellOf(m, d, reach.Get(d) + 1) == next.pos;
    forall c
      ensures Marks(m, reach', c) == Marks(m, reach, c) + (if c == next.pos then 1 else 0)
    {
      MarksGrow(m, reach, d, c);
    }
  }

  /** The queue after a walker moves on: popped at the front, pushed at the back. */
  lemma QueuedMoved(m: Maze, queue: seq<EdgePosition>, dirs: seq<Direction>, reach: Reach, level: nat, next: EdgePosition)
    requires ValidMaze(m) && Queued(m, queue, dirs, reach) && Levels(dirs, reach, level) && queue != []
    requires WalkAt(m, dirs[0], reach.Get(dirs[0]) + 1) == At(next)
    ensures var d, k := dirs[0], reach.Get(dirs[0]);
            Queued(m, queue[1..] + [next], dirs[1..] + [d], reach.Set(d, k + 1))
            && Levels(dirs[1..] + [d], reach.Set(d, k + 1), k)
  {
    var d, k := dirs[0], reach.Get(dirs[0]);
    var queue', dirs', reach' := queue[1..] + [next], dirs[1..] + [d], reach.Set(d, k + 1);
    QueueRotated(m, queue, dirs, reach, level, next);
    forall e
      ensures WalkAt(m, e, reach'.Get(e)).At?
      ensures e in dirs' || WalkAt(m, e, reach'.Get(e) + 1).Ended?
    {
      if e == d {
        assert dirs'[|dirs'| - 1] == e;
      } else {
        assert reach'.Get(e) == reach.Get(e);
        if e in dirs {
          var i :| 0 <= i < |dirs| && dirs[i] == e;
          assert dirs'[i - 1] == e;
        }
      }
    }
  }

  lemma QueueRotated(m: Maze, queue: seq<EdgePosition>, dirs: seq<Direction>, reach: Reach, level: nat, next: EdgePosition)
    requires ValidMaze(m) && Queued(m, queue, dirs, reach) && Levels(dirs, reach, level) && queue != []
    requires WalkAt(m, dirs[0], reach.Get(dirs[0]) + 1) == At(next)
    ensures var d, k := dirs[0], reach.Get(dirs[0]);
            var queue', dirs', reach' := queue[1..] + [next], dirs[1..] + [d], reach.Set(d, k + 1);
            |dirs'| == |queue'|
            && (forall i :: 0 <= i < |queue'| ==> WalkAt(m, dirs'[i], reach'.Get(dirs'[i])) == At(queue'[i]))
            && (forall i, j :: 0 <= i < j < |dirs'| ==> dirs'[i] != dirs'[j])
            && Levels(dirs', reach', k)
  {
    var d, k := dirs[0], reach.Get(dirs[0]);
    var queue', dirs', reach' := queue[1..] + [next], dirs[1..] + [d], reach.Set(d, k + 1);
    forall i | 0 <= i < |queue'|
      ensures WalkAt(m, dirs'[i], reach'.Get(dirs'[i])) == At(queue'[i])
      ensures k <= reach'.Get(dirs'[i]) <= k + 1
    {
      if i < |queue'| - 1 {
        assert dirs'[i] == dirs[i + 1] != d && queue'[i] == queue[i + 1];
      }
    }
    forall i, j | 0 <= i < j < |dirs'|
      ensures dirs'[i] != dirs'[j] && reach'.Get(dirs'[i]) <= reach'.Get(dirs'[j])
    {
      assert dirs'[i] == dirs[i + 1];
      if j < |dirs'| - 1 {
        assert dirs'[j] == dirs[j + 1];
      }
    }
  }

  /** Popping a walker that moves on into a marked cell: this is the first meeting. */
  lemma ExploredMeets(m: Maze, queue: seq<EdgePosition>, dirs: seq<Direction>, reach: Reach,
                      visited: seq<bool>, level: nat, next: EdgePosition)
    requires Explored(m, queue, dirs, reach, visited, level) && queue != []
    requires WalkAt(m, dirs[0], reach.Get(dirs[0]) + 1) == At(next) && visited[next.pos]
    ensures FirstMeeting(m, reach.Get(dirs[0]) + 1)
  {
    var d, k := dirs[0], reach.Get(dirs[0]);
    var d', j' := MarkedBy(m, reach, next.pos);
    assert j' <= k + 1;
    assert Meet(m, d', j', d, k + 1);
    forall d1, k1: nat, d2, k2: nat | k1 < k + 1 && k2 < k + 1
      ensures !Meet(m, d1, k1, d2, k2)
    {
      if Meet(m, d1, k1, d2, k2) {
        ReachedUpTo(m, queue, dirs, reach, d1, k1);
        ReachedUpTo(m, queue, dirs, reach, d2, k2);
        MarkedTwice(m, reach, d1, k1, d2, k2);
      }
    }
  }

  /** A walker still walking after no more pipes than the head of the queue has gone has
      been followed that far. */
  lemma ReachedUpTo(m: Maze, queue: seq<EdgePosition>, dirs: seq<Direction>, reach: Reach, e: Direction, j: nat)
    requires ValidMaze(m) && Queued(m, queue, dirs, reach)
    requires forall i, j :: 0 <= i < j < |dirs| ==> reach.Get(dirs[i]) <= reach.Get(dirs[j])
    requires WalkAt(m, e, j).At?
    requires (queue != [] && j <= reach.Get(dirs[0])) || queue == []
    ensures j <= reach.Get(e)
  {
    if e in dirs {
      var i :| 0 <= i < |dirs| && dirs[i] == e;
      if i > 0 {
        assert reach.Get(dirs[0]) <= reach.Get(dirs[i]);
      }
    } else if reach.Get(e) < j {
      WalkedBefore(m, e, reach.Get(e) + 1, j);
    }
  }

  /** An empty queue: every walker has stopped and no two ever met. */
  lemma ExploredAll(m: Maze, reach: Reach, visited: seq<bool>, level: nat)
    requires Explored(m, [], [], reach, visited, level)
    ensures forall d1, k1: nat, d2, k2: nat :: !Meet(m, d1, k1, d2, k2)
    ensures forall d :: Stops(m, d)
  {
    forall d1, k1: nat, d2, k2: nat
      ensures !Meet(m, d1, k1, d2, k2)
    {
      if Meet(m, d1, k1, d2, k2) {
        ReachedUpTo(m, [], [], reach, d1, k1);
        ReachedUpTo(m, [], [], reach, d2, k2);
        MarkedTwice(m, reach, d1, k1, d2, k2);
      }
    }
    forall d
      ensures Stops(m, d)
    {
      assert WalkAt(m, d, reach.Get(d) + 1).Ended?;
    }
  }

  /** The walker at the head of the queue does not leave the grid: that would need two
      walkers to have met within the pipes already followed, and every cell is marked once. */
  lemma StaysInGrid(m: Maze, queue: seq<EdgePosition>, dirs: seq<Direction>, reach: Reach,
                    visited: seq<bool>, level: nat)
    requires Explored(m, queue, dirs, reach, visited, level) && queue != []
    ensures !WalkAt(m, dirs[0], reach.Get(dirs[0]) + 1).Escaped?
  {
    var k := reach.Get(dirs[0]);
    if WalkAt(m, dirs[0], k + 1).Escaped? {
      var d1, k1: nat, d2, k2: nat :| k1 < k + 1 && k2 < k + 1 && Meet(m, d1, k1, d2, k2);
      ReachedUpTo(m, queue, dirs, reach, d1, k1);
      ReachedUpTo(m, queue, dirs, reach, d2, k2);
      MarkedTwice(m, reach, d1, k1, d2, k2);
    }
  }

  /** Popping the head of the queue of a running search: the walker stops, meets another
      for the first time, or moves into a cell not marked yet. */
  lemma ExploredStep(m: Maze, s: SearchState)
    requires Holds(m, s) && s.Searching? && s.queue != []
    ensures EscapesAfterMeeting(m) && s.dirs != [] && s.queue[0].pos < CELLS && |s.visited| == CELLS
    ensures var d, k := s.dirs[0], s.reach.Get(s.dirs[0]);
            var w := Advance(m, s.queue[0]);
            (w.Ended? ==> Explored(m, s.queue[1..], s.dirs[1..], s.reach, s.visited, k))
            && (w.At? && s.visited[w.edge.pos] ==> w.edge.steps == k + 1 && FirstMeeting(m, k + 1))
            && (w.At? && !s.visited[w.edge.pos] ==>
                  Explored(m, s.queue[1..] + [w.edge], s.dirs[1..] + [d], s.reach.Set(d, k + 1),
                           s.visited[w.edge.pos := true], k)
                  && CountFalse(s.visited[w.edge.pos := true]) < CountFalse(s.visited))
            && !w.Escaped?
  {
    var queue, dirs, reach, visited, level := s.queue, s.dirs, s.reach, s.visited, s.level;
    var d, k := dirs[0], reach.Get(dirs[0]);
    WalkNext(m, d, k, queue[0]);
    StaysInGrid(m, queue, dirs, reach, visited, level);
    var w := Advance(m, queue[0]);
    if w.Ended? {
      ExploredEnded(m, queue, dirs, reach, visited, level);
    } else if w.At? && visited[w.edge.pos] {
      ExploredMeets(m, queue, dirs, reach, visited, level, w.edge);
    } else if w.At? {
      ExploredMoved(m, queue, dirs, reach, visited, level, w.edge);
      CountFalseSet(visited, w.edge.pos);
    }
  }

  /** The state of the search, with the bookkeeping of the proof: for each walker in the
      queue its direction, the pipes each walker has gone, and the count of the walker at the
      head of the queue; or the answer, once a walker enters a marked cell. */
  datatype SearchState =
    | Searching(queue: seq<EdgePosition>, dirs: seq<Direction>, reach: Reach, visited: seq<bool>, level: nat)
    | Found(answer: nat)

  /** Crossing every edge of the start stays in the grid. */
  predicate StartCrossable(m: Maze)
  {
    GRID_SIZE <= m.start < CELLS - GRID_SIZE
  }

  /** The four crossings out of the start, in compass order, with no cell marked. */
  ghost function Initial(m: Maze): (s: SearchState)
    requires StartCrossable(m)
  {
    var q := [CrossEdge(EdgePosition(m.start, North, 0)), CrossEdge(EdgePosition(m.start, East, 0)),
              CrossEdge(EdgePosition(m.start, South, 0)), CrossEdge(EdgePosition(m.start, West, 0))];
    Searching(q, COMPASS, Reach(0, 0, 0, 0), seq(CELLS, _ => false), 0)
  }

  /** One turn of the loop of `furthest_point_in_loop`: the walker at the head of the queue
      advances; it is dropped if it stops, gives the answer if it enters a marked cell, and
      otherwise marks its cell and goes to the back of the queue. */
  ghost function Step(m: Maze, s: SearchState): SearchState
    requires ValidMaze(m)
  {
    if !s.Searching? || s.queue == [] || s.dirs == [] || s.queue[0].pos >= CELLS then s
    else
      var d, k := s.dirs[0], s.reach.Get(s.dirs[0]);
      match Advance(m, s.queue[0])
      case Ended => Searching(s.queue[1..], s.dirs[1..], s.reach, s.visited, k)
      case Escaped => s
      case At(next) =>
        if next.pos >= |s.visited| then s
        else if s.visited[next.pos] then Found(next.steps + 1)
        else Searching(s.queue[1..] + [next], s.dirs[1..] + [d], s.reach.Set(d, k + 1),
                       s.visited[next.pos := true], k)
  }

  /** The state after `n` turns. */
  ghost function Search(m: Maze, n: nat): SearchState
    requires ValidMaze(m) && StartCrossable(m)
  {
    if n == 0 then Initial(m) else Step(m, Search(m, n - 1))
  }

  /** What the search keeps: the invariant while it runs, the first meeting once found. */
  ghost predicate Holds(m: Maze, s: SearchState)
  {
    match s
    case Searching(queue, dirs, reach, visited, level) => Explored(m, queue, dirs, reach, visited, level)
    case Found(answer) => answer >= 2 && FirstMeeting(m, answer - 1)
  }

  /** One turn keeps the invariant. */
  lemma StepHolds(m: Maze, s: SearchState)
    requires EscapesAfterMeeting(m) && Holds(m, s)
    ensures Holds(m, Step(m, s))
  {
    if s.Searching? && s.queue != [] {
      ExploredStep(m, s);
      StepAdvances(m, s);
    }
  }

  /** The turn of a running search, by where the walker at the head of the queue goes. */
  lemma StepAdvances(m: Maze, s: SearchState)
    requires ValidMaze(m) && s.Searching? && s.queue != [] && s.dirs != [] && s.queue[0].pos < CELLS
    requires |s.visited| == CELLS
    ensures var d, k, w := s.dirs[0], s.reach.Get(s.dirs[0]), Advance(m, s.queue[0]);
            (w.Ended? ==> Step(m, s) == Searching(s.queue[1..], s.dirs[1..], s.reach, s.visited, k))
            && (w.At? && s.visited[w.edge.pos] ==> Step(m, s) == Found(w.edge.steps + 1))
            && (w.At? && !s.visited[w.edge.pos] ==>
                  Step(m, s) == Searching(s.queue[1..] + [w.edge], s.dirs[1..] + [d], s.reach.Set(d, k + 1),
                                          s.visited[w.edge.pos := true], k))
  {
  }

  /** Every state of the search keeps the invariant. */
  lemma {:induction false} SearchHolds(m: Maze, n: nat)
    requires EscapesAfterMeeting(m) && StartCrossable(m)
    ensures Holds(m, Search(m, n))
  {
    if n == 0 {
      NoEscapeStart(m);
      var q := Initial(m).queue;
      forall i | 0 <= i < 4
        ensures WalkAt(m, COMPASS[i], 0) == At(q[i])
      {
        assert !WalkAt(m, COMPASS[i], 0).Escaped?;
      }
      ExploredInitially(m, q);
    } else {
      SearchHolds(m, n - 1);
      StepHolds(m, Search(m, n - 1));
    }
  }

  /** No walker leaves the grid before any has followed a pipe, so the start is not on the
      border. */
  lemma NoEscapeStart(m: Maze)
    requires EscapesAfterMeeting(m)
    ensures StartCrossable(m)
    ensures forall d :: !WalkAt(m, d, 0).Escaped?
  {
    assert !WalkAt(m, North, 0).Escaped? && !WalkAt(m, South, 0).Escaped?;
  }

  /** After `n` turns the search is still running, with this queue and these marks. */
  ghost predicate Running(m: Maze, n: nat, queue: seq<EdgePosition>, visited: seq<bool>)
    requires ValidMaze(m) && StartCrossable(m)
  {
    var s := Search(m, n);
    s.Searching? && s.queue == queue && s.visited == visited
  }

  /** One turn of the loop, in the terms of the loop: where the walker at the head of the
      queue goes and what the search does next. */
  lemma Turn(m: Maze, n: nat, queue: seq<EdgePosition>, visited: seq<bool>)
    requires EscapesAfterMeeting(m) && StartCrossable(m) && Running(m, n, queue, visited) && queue != []
    ensures queue[0].pos < CELLS && |visited| == CELLS
    ensures var w := Advance(m, queue[0]);
            !w.Escaped?
            && (w.Ended? ==> Running(m, n + 1, queue[1..], visited))
            && (w.At? && visited[w.edge.pos] ==> w.edge.steps + 1 >= 2 && FirstMeeting(m, w.edge.steps))
            && (w.At? && !visited[w.edge.pos] ==>
                  Running(m, n + 1, queue[1..] + [w.edge], visited[w.edge.pos := true])
                  && CountFalse(visited[w.edge.pos := true]) < CountFalse(visited))
  {
    var s := Search(m, n);
    SearchHolds(m, n);
    ExploredStep(m, s);
    StepAdvances(m, s);
    assert Search(m, n + 1) == Step(m, s);
  }

  /** A search whose queue runs empty has seen every walker stop without meeting another. */
  lemma SearchDone(m: Maze, n: nat, visited: seq<bool>)
    requires EscapesAfterMeeting(m) && StartCrossable(m) && Running(m, n, [], visited)
    ensures forall d1, k1: nat, d2, k2: nat :: !Meet(m, d1, k1, d2, k2)
    ensures forall d :: Stops(m, d)
  {
    SearchHolds(m, n);
    var s := Search(m, n);
    ExploredAll(m, s.reach, s.visited, s.level);
  }

  /** One pass of the loop body of `furthest_point_in_loop`: pop the head of the queue; follow
      its pipe and cross the far edge; return the answer at a marked cell, otherwise mark the
      cell and queue the crossing. */
  method TakeTurn(m: Maze, visited: array<bool>, queue: seq<EdgePosition>, ghost turns: nat)
    returns (rest: seq<EdgePosition>, found: Option<nat>)
    requires EscapesAfterMeeting(m) && StartCrossable(m) && visited.Length == CELLS && queue != []
    requires Running(m, turns, queue, visited[..])
    modifies visited
    ensures found.Some? ==> found.value >= 2 && FirstMeeting(m, found.value - 1)
    ensures found.None? ==> Running(m, turns + 1, rest, visited[..])
    ensures found.None? ==> CountFalse(visited[..]) < CountFalse(old(visited[..]))
                            || (visited[..] == old(visited[..]) && |rest| < |queue|)
  {
    var pos := queue[0];
    ghost var marks := visited[..];
    Turn(m, turns, queue, marks);
    var pipe := m.grid[pos.pos];
    if pipe.Some? && TraversePipe(pos, pipe.value).Some? {
      var next := CrossEdge(TraversePipe(pos, pipe.value).value);
      if visited[next.pos] {
        return [], Some(next.steps + 1);
      }
      visited[next.pos] := true;
      assert visited[..] == marks[next.pos := true];
      rest := queue[1..] + [next];
    } else {
      rest := queue[1..];
    }
    found := None;
  }

  /** `furthest_point_in_loop`: the number of pipes to the first cell reached twice, counting
      the step into the start's neighbour; `None` when the walkers all stop without meeting. */
  method FurthestPointInLoop(m: Maze) returns (r: Option<nat>)
    requires EscapesAfterMeeting(m)
    ensures r.Some? ==> r.value >= 2 && FirstMeeting(m, r.value - 1)
    ensures r.None? ==> (forall d1, k1: nat, d2, k2: nat :: !Meet(m, d1, k1, d2, k2))
                        && forall d :: Stops(m, d)
  {
    NoEscapeStart(m);
    var visited := new bool[CELLS](_ => false);
    var queue: seq<EdgePosition> := [];
    for i := 0 to 4
      invariant queue == Initial(m).queue[..i]
    {
      queue := queue + [CrossEdge(EdgePosition(m.start, COMPASS[i], 0))];
    }
    ghost var turns := 0;
    assert Running(m, 0, queue, visited[..]);
    while queue != []
      invariant visited.Length == CELLS
      invariant Running(m, turns, queue, visited[..])
      decreases CountFalse(visited[..]), |queue|
    {
      var found;
      queue, found := TakeTurn(m, visited, queue, turns);
      if found.Some? {
        return found;
      }
      turns := turns + 1;
    }
    SearchDone(m, turns, visited[..]);
    return None;
  }
}
