/** Day 16: a beam of light bouncing through a 110 by 110 contraption of mirrors and
    splitters. `energised_cells` follows every beam with a queue, marking each (cell,
    direction) pair in an `EnergisationTracker` of one byte per cell, and counts the cells
    any beam entered; the model proves that this count is the number of cells a beam from
    the start can reach. */
module Day16 {
  import opened Wrappers
  import opened Text
  import opened GridText

  const GRID_SIZE: nat := 110
  const CELLS: nat := GRID_SIZE * GRID_SIZE

  // ---------------------------------------------------------------------------------------
  // Directions and spaces

  datatype Direction = North | East | South | West

  predicate IsVertical(d: Direction)
  {
    d == North || d == South
  }

  function Opposite(d: Direction): (r: Direction)
    ensures r != d && IsVertical(r) == IsVertical(d)
  {
    match d
    case North => South
    case East => West
    case South => North
    case West => East
  }

  datatype MirrorType = Forwardslash | Backslash

  datatype SplitterType = Horizontal | Vertical

  datatype Space = Empty | Mirror(mirror: MirrorType) | Splitter(splitter: SplitterType)

  /** The directions a beam leaves a space in: a first one, and a second one for a split. */
  type Outgoing = (Option<Direction>, Option<Direction>)

  /** `MirrorType::next_directions`: a mirror turns the beam by a right angle and never
      splits it. */
  function MirrorNext(mirror: MirrorType, current: Direction): (r: Outgoing)
    ensures r.0.Some? && r.1.None?
    ensures IsVertical(r.0.value) != IsVertical(current)
  {
    var next := match (mirror, current)
      case (Forwardslash, North) => East
      case (Backslash, South) => East
      case (Forwardslash, East) => North
      case (Backslash, West) => North
      case (Forwardslash, South) => West
      case (Backslash, North) => West
      case (Forwardslash, West) => South
      case (Backslash, East) => South;
    (Some(next), None)
  }

  /** A mirror's path can be run backwards: a beam sent back the way the mirror sent it
      leaves in the direction opposite to the one it came in by. */
  lemma MirrorReversible(mirror: MirrorType, current: Direction)
    ensures MirrorNext(mirror, Opposite(MirrorNext(mirror, current).0.value)).0.value == Opposite(current)
  {
  }

  /** The two kinds of mirror turn a beam to opposite sides. */
  lemma MirrorsTurnApart(current: Direction)
    ensures MirrorNext(Forwardslash, current).0.value == Opposite(MirrorNext(Backslash, current).0.value)
  {
  }

  /** `SplitterType::next_directions`: a beam along the splitter passes straight through; one
      hitting it side-on splits into the two directions along it. */
  function SplitterNext(splitter: SplitterType, current: Direction): (r: Outgoing)
    ensures IsVertical(current) == (splitter == Vertical) ==> r == (Some(current), None)
    ensures IsVertical(current) != (splitter == Vertical) ==>
              r.0.Some? && r.1.Some? && r.1.value == Opposite(r.0.value)
              && IsVertical(r.0.value) == (splitter == Vertical)
  {
    match (splitter, IsVertical(current))
    case (Vertical, false) => (Some(North), Some(South))
    case (Horizontal, true) => (Some(West), Some(East))
    case _ => (Some(current), None)
  }

  /** `Space::next_directions`: an empty space passes the beam on unchanged. Every space
      sends the beam on in at least one direction. */
  function NextDirections(space: Space, current: Direction): (r: Outgoing)
    ensures r.0.Some?
    ensures space == Empty ==> r == (Some(current), None)
  {
    match space
    case Mirror(mirror) => MirrorNext(mirror, current)
    case Splitter(splitter) => SplitterNext(splitter, current)
    case Empty => (Some(current), None)
  }

  /** The source's test of `next_directions`, for a beam heading east. */
  lemma NextDirectionsExamples()
    ensures NextDirections(Empty, East) == (Some(East), None)
    ensures NextDirections(Mirror(Forwardslash), East) == (Some(North), None)
    ensures NextDirections(Mirror(Backslash), East) == (Some(South), None)
    ensures NextDirections(Splitter(Horizontal), East) == (Some(East), None)
    ensures NextDirections(Splitter(Vertical), East) == (Some(North), Some(South))
  {
  }

  // ---------------------------------------------------------------------------------------
  // Moving through the grid

  function Row(pos: nat): nat { pos / GRID_SIZE }

  function Col(pos: nat): nat { pos % GRID_SIZE }

  /** `Contraption::step`: the neighbouring cell in a direction, or `None` when the move
      would leave the grid. */
  function Step(pos: nat, dir: Direction): (r: Option<nat>)
    requires pos < CELLS
    ensures r.Some? ==> r.value < CELLS
    ensures r.None? <==> match dir
                        case North => Row(pos) == 0
                        case South => Row(pos) == GRID_SIZE - 1
                        case West => Col(pos) == 0
                        case East => Col(pos) == GRID_SIZE - 1
    ensures r.Some? ==> match dir
                        case North => Row(r.value) + 1 == Row(pos) && Col(r.value) == Col(pos)
                        case South => Row(r.value) == Row(pos) + 1 && Col(r.value) == Col(pos)
                        case West => Row(r.value) == Row(pos) && Col(r.value) + 1 == Col(pos)
                        case East => Row(r.value) == Row(pos) && Col(r.value) == Col(pos) + 1
  {
    var row := pos / GRID_SIZE;
    var col := pos % GRID_SIZE;
    match dir
    case North => if row > 0 then Some(pos - GRID_SIZE) else None
    case East => if col + 1 < GRID_SIZE then Some(pos + 1) else None
    case South => if row + 1 < GRID_SIZE then Some(pos + GRID_SIZE) else None
    case West => if col > 0 then Some(pos - 1) else None
  }

  /** A step can be taken back. */
  lemma StepBack(pos: nat, dir: Direction)
    requires pos < CELLS && Step(pos, dir).Some?
    ensures Step(Step(pos, dir).value, Opposite(dir)) == Some(pos)
  {
  }

  // ---------------------------------------------------------------------------------------
  // The energisation tracker: one byte per cell, one bit per direction

  /** The bit of a direction in the byte of its cell. */
  function DirectionBit(d: Direction): bv8
  {
    match d
    case North => 1
    case East => 2
    case South => 4
    case West => 8
  }

  /** How many of the four direction bits of a byte are clear. */
  function Clear(x: bv8): nat
  {
    (if x & 1 == 0 then 1 else 0) + (if x & 2 == 0 then 1 else 0)
    + (if x & 4 == 0 then 1 else 0) + (if x & 8 == 0 then 1 else 0)
  }

  /** Setting the bit of a direction that was clear leaves one bit fewer clear, and keeps
      the byte below 16. */
  lemma SetBit(x: bv8, d: Direction)
    ensures x & DirectionBit(d) == 0 ==> Clear(x | DirectionBit(d)) + 1 == Clear(x)
    ensures x < 16 ==> x | DirectionBit(d) < 16
  {
  }

  /** After setting the bit of `d`, the bit of `e` is set exactly when it was before or
      `e` is `d`. */
  lemma SetBitMarks(x: bv8, d: Direction, e: Direction)
    ensures (x | DirectionBit(d)) & DirectionBit(e) != 0 <==> x & DirectionBit(e) != 0 || e == d
  {
  }

  /** A byte below 16 is zero exactly when no direction bit is set. */
  lemma ZeroIffNoDirection(x: bv8)
    requires x < 16
    ensures x == 0 <==> forall d :: x & DirectionBit(d) == 0
  {
    if x != 0 {
      var d := if x & 1 != 0 then North else if x & 2 != 0 then East
               else if x & 4 != 0 then South else West;
      assert x & DirectionBit(d) != 0;
    }
  }

  /** The clear direction bits of all the bytes. */
  function ClearBits(s: seq<bv8>): nat
  {
    if s == [] then 0 else ClearBits(s[..|s| - 1]) + Clear(s[|s| - 1])
  }

  /** Replacing one byte changes the clear bits by the difference for that byte. */
  lemma {:induction false} ClearBitsUpdate(s: seq<bv8>, i: nat, x: bv8)
    requires i < |s|
    ensures ClearBits(s[i := x]) + Clear(s[i]) == ClearBits(s) + Clear(x)
    decreases |s|
  {
    var t := s[i := x];
    if i < |s| - 1 {
      assert t[..|t| - 1] == s[..|s| - 1][i := x];
      ClearBitsUpdate(s[..|s| - 1], i, x);
    } else {
      assert t[..|t| - 1] == s[..|s| - 1];
    }
  }

  /** The number of non-zero bytes: the filter-and-count of `energised_cells`. */
  function CountNonZero(s: seq<bv8>): (n: nat)
    ensures n <= |s|
  {
    if s == [] then 0 else CountNonZero(s[..|s| - 1]) + (if s[|s| - 1] != 0 then 1 else 0)
  }

  /** A beam: the cell it is in and the direction it is heading. */
  datatype Beam = Beam(pos: nat, dir: Direction)

  /** The byte of the beam's cell has the bit of its direction set. */
  ghost predicate Marked(s: seq<bv8>, b: Beam)
  {
    b.pos < |s| && s[b.pos] & DirectionBit(b.dir) != 0
  }

  /** The bytes with the bit of beam `b` set. */
  function Mark(s: seq<bv8>, b: Beam): (r: seq<bv8>)
    requires b.pos < |s|
    ensures |r| == |s|
  {
    s[b.pos := s[b.pos] | DirectionBit(b.dir)]
  }

  /** Marking a beam marks it and leaves every other beam as it was. */
  lemma MarkedUpdate(s: seq<bv8>, m: Beam)
    requires m.pos < |s|
    ensures forall b :: Marked(Mark(s, m), b) <==> Marked(s, b) || b == m
  {
    forall b
      ensures Marked(Mark(s, m), b) <==> Marked(s, b) || b == m
    {
      if b.pos == m.pos {
        assert Mark(s, m)[b.pos] == s[m.pos] | DirectionBit(m.dir);
        SetBitMarks(s[m.pos], m.dir, b.dir);
      } else if b.pos < |s| {
        assert Mark(s, m)[b.pos] == s[b.pos];
      }
    }
  }

  /** `EnergisationTracker`. */
  class EnergisationTracker {
    const grid: array<bv8>

    ghost predicate Valid()
      reads this, grid
    {
      grid.Length == CELLS && forall i :: 0 <= i < CELLS ==> grid[i] < 16
    }

    /** A beam has passed through cell `b.pos` heading `b.dir`. */
    ghost predicate Visited(b: Beam)
      reads this, grid
    {
      Marked(grid[..], b)
    }

    /** `new`: nothing visited. */
    constructor ()
      ensures Valid() && fresh(grid)
      ensures forall b :: !Visited(b)
    {
      grid := new bv8[CELLS](_ => 0);
    }

    /** `visit`: marks the beam and tells whether it was marked before; nothing else
        changes, and a first visit leaves one bit fewer clear. */
    method Visit(pos: nat, direction: Direction) returns (visited: bool)
      requires Valid() && pos < CELLS
      modifies grid
      ensures Valid()
      ensures visited == old(Visited(Beam(pos, direction)))
      ensures grid[..] == Mark(old(grid[..]), Beam(pos, direction))
      ensures visited ==> grid[..] == old(grid[..])
      ensures !visited ==> ClearBits(grid[..]) + 1 == ClearBits(old(grid[..]))
    {
      var value := DirectionBit(direction);
      visited := grid[pos] & value == value;
      SetBit(grid[pos], direction);
      ghost var before := grid[..];
      grid[pos] := grid[pos] | value;
      assert grid[..] == before[pos := grid[pos]];
      ClearBitsUpdate(before, pos, grid[pos]);
    }

    /** `energised_cells`: the number of cells with any direction visited. */
    method EnergisedCells() returns (n: nat)
      requires Valid()
      ensures n == CountNonZero(grid[..]) && n <= CELLS
      ensures forall pos :: 0 <= pos < CELLS ==>
                (grid[pos] != 0 <==> exists d :: Visited(Beam(pos, d)))
    {
      n := 0;
      for i := 0 to grid.Length
        invariant n == CountNonZero(grid[..i])
      {
        assert grid[..i + 1][..i] == grid[..i];
        n := n + if grid[i] != 0 then 1 else 0;
      }
      assert grid[..grid.Length] == grid[..];
      forall pos | 0 <= pos < CELLS
        ensures grid[pos] != 0 <==> exists d :: Visited(Beam(pos, d))
      {
        ZeroIffNoDirection(grid[pos]);
        if grid[pos] != 0 {
          var d :| grid[pos] & DirectionBit(d) != 0;
          assert Visited(Beam(pos, d));
        }
      }
    }
  }

  // ---------------------------------------------------------------------------------------
  // The contraption and the beams through it

  datatype Contraption = Contraption(grid: seq<Space>)

  predicate ValidContraption(c: Contraption)
  {
    |c.grid| == CELLS
  }

  /** The beams one step on from beam `b`, as `energised_cells` queues them. */
  function Successors(c: Contraption, b: Beam): (r: seq<Beam>)
    requires ValidContraption(c) && b.pos < CELLS
    ensures forall n :: n in r ==> n.pos < CELLS
  {
    var next := NextDirections(c.grid[b.pos], b.dir);
    Moved(b.pos, next.0) + Moved(b.pos, next.1)
  }

  function Moved(pos: nat, dir: Option<Direction>): (r: seq<Beam>)
    requires pos < CELLS
    ensures forall n :: n in r ==> n.pos < CELLS
  {
    if dir.None? then []
    else match Step(pos, dir.value)
      case None => []
      case Some(next) => [Beam(next, dir.value)]
  }

  /** A run of beams from `start`, one step at a time. */
  ghost predicate Path(c: Contraption, start: Beam, path: seq<Beam>)
    requires ValidContraption(c)
  {
    path != [] && path[0] == start
    && (forall i :: 0 <= i < |path| ==> path[i].pos < CELLS)
    && (forall i :: 0 <= i < |path| - 1 ==> path[i].pos < CELLS && path[i + 1] in Successors(c, path[i]))
  }

  /** A beam from `start` can become beam `b`. */
  ghost predicate Reachable(c: Contraption, start: Beam, b: Beam)
    requires ValidContraption(c)
  {
    exists path :: Path(c, start, path) && path[|path| - 1] == b
  }

  lemma ReachableStart(c: Contraption, start: Beam)
    requires ValidContraption(c) && start.pos < CELLS
    ensures Reachable(c, start, start)
  {
    assert Path(c, start, [start]);
  }

  /** One step from a reachable beam reaches a beam. */
  lemma ReachableStep(c: Contraption, start: Beam, b: Beam, n: Beam)
    requires ValidContraption(c) && b.pos < CELLS && Reachable(c, start, b) && n in Successors(c, b)
    ensures Reachable(c, start, n)
  {
    var path :| Path(c, start, path) && path[|path| - 1] == b;
    var path' := path + [n];
    forall i | 0 <= i < |path'| - 1
      ensures path'[i].pos < CELLS && path'[i + 1] in Successors(c, path'[i])
    {
      if i < |path| - 1 {
        assert path'[i] == path[i] && path'[i + 1] == path[i + 1];
      }
    }
    assert Path(c, start, path');
  }

  lemma {:induction false} PathInside(c: Contraption, start: Beam, marks: seq<bv8>, path: seq<Beam>, i: nat)
    requires ValidContraption(c) && |marks| == CELLS && Marked(marks, start)
    requires forall b, n | Marked(marks, b) && n in Successors(c, b) :: Marked(marks, n)
    requires Path(c, start, path) && i < |path|
    ensures Marked(marks, path[i])
  {
    if i > 0 {
      PathInside(c, start, marks, path, i - 1);
      assert path[i] in Successors(c, path[i - 1]);
    }
  }

  /** Some beam from `start` passes through cell `pos`. */
  ghost predicate Energised(c: Contraption, start: Beam, pos: nat)
    requires ValidContraption(c)
  {
    exists d :: Reachable(c, start, Beam(pos, d))
  }

  /** The number of energised cells among the first `n`. */
  ghost function EnergisedUpTo(c: Contraption, start: Beam, n: nat): nat
    requires ValidContraption(c)
  {
    if n == 0 then 0 else EnergisedUpTo(c, start, n - 1) + if Energised(c, start, n - 1) then 1 else 0
  }

  /** At most every cell is energised, and the start cell always is. */
  lemma {:induction false} EnergisedBounds(c: Contraption, start: Beam, n: nat)
    requires ValidContraption(c) && start.pos < CELLS
    ensures EnergisedUpTo(c, start, n) <= n
    ensures start.pos < n ==> EnergisedUpTo(c, start, n) >= 1
  {
    if n > 0 {
      EnergisedBounds(c, start, n - 1);
      if start.pos == n - 1 {
        ReachableStart(c, start);
        assert Energised(c, start, n - 1);
      }
    }
  }

  /** The count of non-zero bytes is the count of energised cells, when the two agree cell
      by cell. */
  lemma {:induction false} CountNonZeroEnergised(c: Contraption, start: Beam, s: seq<bv8>, n: nat)
    requires ValidContraption(c) && n <= |s|
    requires forall pos :: 0 <= pos < n ==> (s[pos] != 0 <==> Energised(c, start, pos))
    ensures CountNonZero(s[..n]) == EnergisedUpTo(c, start, n)
  {
    if n > 0 {
      assert s[..n][..n - 1] == s[..n - 1];
      CountNonZeroEnergised(c, start, s, n - 1);
    }
  }

  /** The state of the search: the beams marked and queued are reachable, the start has
      been marked or is waiting, and every step out of a marked beam leads to a marked or
      waiting beam. */
  ghost predicate Searching(c: Contraption, start: Beam, marks: seq<bv8>, queue: seq<Beam>)
    requires ValidContraption(c)
  {
    |marks| == CELLS
    && (forall b :: Marked(marks, b) ==> Reachable(c, start, b))
    && (forall b :: b in queue ==> b.pos < CELLS && Reachable(c, start, b))
    && (forall b, n | Marked(marks, b) && n in Successors(c, b) :: Marked(marks, n) || n in queue)
    && (Marked(marks, start) || start in queue)
  }

  lemma SearchStart(c: Contraption, start: Beam, marks: seq<bv8>)
    requires ValidContraption(c) && start.pos < CELLS && |marks| == CELLS
    requires forall b :: !Marked(marks, b)
    ensures Searching(c, start, marks, [start])
  {
    ReachableStart(c, start);
  }

  /** Popping a beam: dropped when marked already, otherwise marked, with its steps queued. */
  lemma SearchStep(c: Contraption, start: Beam, marks: seq<bv8>, queue: seq<Beam>)
    requires ValidContraption(c) && Searching(c, start, marks, queue) && queue != []
    ensures queue[0].pos < CELLS
    ensures Marked(marks, queue[0]) ==> Searching(c, start, marks, queue[1..])
    ensures !Marked(marks, queue[0]) ==>
              Searching(c, start, Mark(marks, queue[0]), queue[1..] + Successors(c, queue[0]))
  {
    var b := queue[0];
    forall n | n in queue
      ensures n == b || n in queue[1..]
    {
      var i :| 0 <= i < |queue| && queue[i] == n;
      if i > 0 {
        assert queue[1..][i - 1] == n;
      }
    }
    if !Marked(marks, b) {
      MarkedUpdate(marks, b);
      forall n | n in Successors(c, b)
        ensures Reachable(c, start, n)
      {
        ReachableStep(c, start, b, n);
      }
    }
  }

  /** An empty queue: the beams marked are exactly the reachable ones. */
  lemma SearchDone(c: Contraption, start: Beam, marks: seq<bv8>)
    requires ValidContraption(c) && Searching(c, start, marks, [])
    ensures forall b: Beam :: b.pos < CELLS ==> (Marked(marks, b) <==> Reachable(c, start, b))
  {
    forall b: Beam | b.pos < CELLS && Reachable(c, start, b)
      ensures Marked(marks, b)
    {
      var path :| Path(c, start, path) && path[|path| - 1] == b;
      PathInside(c, start, marks, path, |path| - 1);
    }
  }

  /** Queueing the moves in the two directions of a space queues the beam's successors. */
  lemma QueuedSuccessors(c: Contraption, b: Beam, queue: seq<Beam>)
    requires ValidContraption(c) && b.pos < CELLS
    ensures var next := NextDirections(c.grid[b.pos], b.dir);
            queue + Moved(b.pos, next.0) + Moved(b.pos, next.1) == queue + Successors(c, b)
  {
    var next := NextDirections(c.grid[b.pos], b.dir);
    assert queue + Moved(b.pos, next.0) + Moved(b.pos, next.1) == queue + (Moved(b.pos, next.0) + Moved(b.pos, next.1));
  }

  /** Queues the beam one step on in direction `dir`, if there is one and the step stays in
      the grid. */
  method PushStep(queue: seq<Beam>, pos: nat, dir: Option<Direction>) returns (r: seq<Beam>)
    requires pos < CELLS
    ensures r == queue + Moved(pos, dir)
  {
    r := queue;
    if dir.Some? {
      var next := Step(pos, dir.value);
      if next.Some? {
        r := r + [Beam(next.value, dir.value)];
      }
    }
  }

  /** `Contraption::energised_cells`: the number of cells a beam from `start` passes through. */
  method EnergisedCells(c: Contraption, start: Beam) returns (count: nat)
    requires ValidContraption(c) && start.pos < CELLS
    ensures count == EnergisedUpTo(c, start, CELLS)
    ensures 1 <= count <= CELLS
  {
    EnergisedBounds(c, start, CELLS);
    var visited := new EnergisationTracker();
    var queue: seq<Beam> := [start];
    forall b
      ensures !Marked(visited.grid[..], b)
    {
      assert !visited.Visited(b);
    }
    SearchStart(c, start, visited.grid[..]);
    while queue != []
      invariant visited.Valid() && fresh(visited.grid)
      // an equation, so that the verifier keeps the state as one fact instead of its parts
      invariant Searching(c, start, visited.grid[..], queue) == true
      decreases ClearBits(visited.grid[..]), |queue|
    {
      SearchStep(c, start, visited.grid[..], queue);
      var beam := queue[0];
      queue := queue[1..];
      var already := visited.Visit(beam.pos, beam.dir);
      if !already {
        ghost var rest := queue;
        var next := NextDirections(c.grid[beam.pos], beam.dir);
        queue := PushStep(queue, beam.pos, next.0);
        queue := PushStep(queue, beam.pos, next.1);
        QueuedSuccessors(c, beam, rest);
      }
    }
    SearchDone(c, start, visited.grid[..]);
    count := visited.EnergisedCells();
    forall pos | 0 <= pos < CELLS
      ensures visited.grid[pos] != 0 <==> Energised(c, start, pos)
    {
      if visited.grid[pos] != 0 {
        var d :| visited.Visited(Beam(pos, d));
      }
    }
    CountNonZeroEnergised(c, start, visited.grid[..], CELLS);
    assert visited.grid[..][..CELLS] == visited.grid[..];
  }

  // ---------------------------------------------------------------------------------------
  // The best start

  /** The number of cells a beam from `start` energises. */
  ghost function Energy(c: Contraption, start: Beam): nat
    requires ValidContraption(c)
  {
    EnergisedUpTo(c, start, CELLS)
  }

  /** The four starts of `most_energised_cells` for row or column `k`: down from the top
      row, up from the bottom row, east from the left column and west from the right column. */
  function EdgeStarts(k: nat): (r: seq<Beam>)
    requires k < GRID_SIZE
    ensures |r| == 4 && forall i :: 0 <= i < 4 ==> r[i].pos < CELLS
  {
    [Beam(k, South), Beam(CELLS - 1 - k, North), Beam(GRID_SIZE * k, East), Beam(GRID_SIZE * k + GRID_SIZE - 1, West)]
  }

  /** `most` is the largest energy of any start on the edge. */
  ghost predicate IsMostEnergised(c: Contraption, most: nat)
    requires ValidContraption(c)
  {
    (forall k, i :: 0 <= k < GRID_SIZE && 0 <= i < 4 ==> Energy(c, EdgeStarts(k)[i]) <= most)
    && exists k, i :: 0 <= k < GRID_SIZE && 0 <= i < 4 && Energy(c, EdgeStarts(k)[i]) == most
  }

  /** `most` is the largest energy of the starts in the first `k` rows or columns. */
  ghost predicate MostUpTo(c: Contraption, k: nat, most: nat)
    requires ValidContraption(c) && k <= GRID_SIZE
  {
    (forall j, i :: 0 <= j < k && 0 <= i < 4 ==> Energy(c, EdgeStarts(j)[i]) <= most)
    && (k > 0 ==> exists j, i :: 0 <= j < k && 0 <= i < 4 && Energy(c, EdgeStarts(j)[i]) == most)
  }

  /** `most_energised_cells`: the most cells energised from any start on the edge, which is
      at least the energy of part one's start. */
  method MostEnergisedCells(c: Contraption) returns (most: nat)
    requires ValidContraption(c)
    ensures IsMostEnergised(c, most)
    ensures Energy(c, Beam(0, East)) <= most
  {
    most := 0;
    for k := 0 to GRID_SIZE
      invariant MostUpTo(c, k, most)
      invariant k == 0 ==> most == 0
    {
      most := MostFromEdge(c, k, most);
    }
    assert EdgeStarts(0)[2] == Beam(0, East);
  }

  /** One turn of the loop of `most_energised_cells`: the four starts of row or column `k`,
      each taken into the running maximum. */
  method MostFromEdge(c: Contraption, k: nat, most: nat) returns (r: nat)
    requires ValidContraption(c) && k < GRID_SIZE
    requires MostUpTo(c, k, most) && (k == 0 ==> most == 0)
    ensures MostUpTo(c, k + 1, r)
  {
    var starts := EdgeStarts(k);
    r := most;
    ghost var from := 0;
    for i := 0 to 4
      invariant most <= r && forall j :: 0 <= j < i ==> Energy(c, starts[j]) <= r
      invariant r != most ==> from < 4 && Energy(c, starts[from]) == r
      invariant i > 0 ==> 1 <= r
    {
      var energy := EnergisedCells(c, starts[i]);
      if energy > r {
        r, from := energy, i;
      }
    }
    if k > 0 && r == most {
      ghost var j, i :| 0 <= j < k && 0 <= i < 4 && Energy(c, EdgeStarts(j)[i]) == most;
      assert Energy(c, EdgeStarts(j)[i]) == r;
    } else {
      assert Energy(c, EdgeStarts(k)[from]) == r;
    }
  }

  // ---------------------------------------------------------------------------------------
  // Parsing

  /** `Space::try_from`. */
  function ParseSpace(ch: char): Result<Space>
  {
    match ch
    case '.' => Ok(Empty)
    case '\\' => Ok(Mirror(Backslash))
    case '/' => Ok(Mirror(Forwardslash))
    case '|' => Ok(Splitter(Vertical))
    case '-' => Ok(Splitter(Horizontal))
    case _ => Err
  }

  /** The character of a space. */
  function SpaceChar(space: Space): char
  {
    match space
    case Empty => '.'
    case Mirror(Backslash) => '\\'
    case Mirror(Forwardslash) => '/'
    case Splitter(Vertical) => '|'
    case Splitter(Horizontal) => '-'
  }

  /** Each space is read from its character and from no other. */
  lemma ParseSpaceChar(space: Space, ch: char)
    ensures ParseSpace(SpaceChar(space)) == Ok(space)
    ensures ParseSpace(ch).Ok? ==> SpaceChar(ParseSpace(ch).value) == ch
  {
  }

  /** `Contraption::from_str`: every character read into cell `row * 110 + col` of a grid of
      empty spaces; an unreadable character is an error. */
  method FromStr(input: String) returns (r: Result<Contraption>)
    requires Fits(Lines(input), GRID_SIZE)
    ensures r.Err? <==> BadCharFrom(ParseSpace, Lines(input), 0, 0)
    ensures r.Ok? ==> ValidContraption(r.value)
                      && Layout(ParseSpace, GRID_SIZE, Lines(input), Empty) == Ok(r.value.grid)
  {
    var grid := ReadGrid(ParseSpace, GRID_SIZE, input, Empty);
    if grid.Err? {
      return Err;
    }
    r := Ok(Contraption(grid.value));
  }

  /** `part_one`: the cells energised by a beam entering the top-left cell heading east. */
  method PartOne(input: String) returns (r: Option<nat>)
    requires Fits(Lines(input), GRID_SIZE)
    ensures r.None? <==> BadCharFrom(ParseSpace, Lines(input), 0, 0)
    ensures r.Some? ==> exists c :: ValidContraption(c) && Layout(ParseSpace, GRID_SIZE, Lines(input), Empty) == Ok(c.grid)
                                    && r.value == Energy(c, Beam(0, East))
  {
    var contraption := FromStr(input);
    if contraption.Err? {
      return None;
    }
    var count := EnergisedCells(contraption.value, Beam(0, East));
    r := Some(count);
  }

  /** `part_two`: the most cells energised from any start on the edge. */
  method PartTwo(input: String) returns (r: Option<nat>)
    requires Fits(Lines(input), GRID_SIZE)
    ensures r.None? <==> BadCharFrom(ParseSpace, Lines(input), 0, 0)
    ensures r.Some? ==> exists c :: ValidContraption(c) && Layout(ParseSpace, GRID_SIZE, Lines(input), Empty) == Ok(c.grid)
                                    && IsMostEnergised(c, r.value) && Energy(c, Beam(0, East)) <= r.value
  {
    var contraption := FromStr(input);
    if contraption.Err? {
      return None;
    }
    var most := MostEnergisedCells(contraption.value);
    r := Some(most);
  }
}
