/** Day 17: a crucible crossing a 141 by 141 city from the top-left block to the
    bottom-right one, losing the heat of every block it enters. It goes straight for between
    `min_dist` and `max_dist` blocks and then turns left or right. `minimal_heat_loss` keeps
    a table of the least heat loss seen so far for every (block, facing) and a heap of
    states still to expand; the model proves that the answer is the least heat loss of any
    journey to the bottom-right block. */
module Day17 {
  import opened Wrappers
  import opened Text
  import opened GridText

  const GRID_SIZE: nat := 141
  const CELLS: nat := GRID_SIZE * GRID_SIZE
  /** One table entry per block and facing. */
  const KEYS: nat := 4 * CELLS
  /** `u32::MAX`, the table's "not reached". */
  const U32_MAX: nat := 0xFFFF_FFFF

  // ---------------------------------------------------------------------------------------
  // Directions

  datatype Direction = North | East | South | West

  function TurnLeft(d: Direction): Direction
  {
    match d
    case North => West
    case East => North
    case South => East
    case West => South
  }

  function TurnRight(d: Direction): Direction
  {
    match d
    case North => East
    case East => South
    case South => West
    case West => North
  }

  /** A left turn and a right turn undo each other. */
  lemma TurnsUndo(d: Direction)
    ensures TurnRight(TurnLeft(d)) == d && TurnLeft(TurnRight(d)) == d
  {
  }

  /** Four turns the same way come back to the start, and two either way face backwards. */
  lemma FourTurns(d: Direction)
    ensures TurnLeft(TurnLeft(TurnLeft(TurnLeft(d)))) == d
    ensures TurnRight(TurnRight(TurnRight(TurnRight(d)))) == d
    ensures TurnLeft(TurnLeft(d)) == TurnRight(TurnRight(d)) != d
  {
  }

  /** The position of a direction in its declaration, which both the derived ordering and
      the visit table's key use. */
  function DirIndex(d: Direction): (i: nat)
    ensures i < 4
  {
    match d
    case North => 0
    case East => 1
    case South => 2
    case West => 3
  }

  function DirOf(i: nat): (d: Direction)
    requires i < 4
    ensures DirIndex(d) == i
  {
    if i == 0 then North else if i == 1 then East else if i == 2 then South else West
  }

  // ---------------------------------------------------------------------------------------
  // Journey states and their heap order

  datatype JourneyState = JourneyState(position: nat, facing: Direction, heatLoss: nat)

  datatype Ordering = Less | Equal | Greater

  function Flip(o: Ordering): Ordering
  {
    match o
    case Less => Greater
    case Equal => Equal
    case Greater => Less
  }

  function CompareNat(a: nat, b: nat): (o: Ordering)
    ensures o == Equal <==> a == b
    ensures o == Less <==> a < b
  {
    if a < b then Less else if a == b then Equal else Greater
  }

  /** `JourneyState::cmp`, for a max-heap: less heat loss is greater, and equal heat losses
      are ordered by position and then facing. */
  function Compare(a: JourneyState, b: JourneyState): (o: Ordering)
    ensures a.heatLoss < b.heatLoss ==> o == Greater
    ensures a.heatLoss > b.heatLoss ==> o == Less
  {
    match CompareNat(a.heatLoss, b.heatLoss)
    case Greater => Less
    case Less => Greater
    case Equal =>
      match CompareNat(a.position, b.position)
      case Equal => CompareNat(DirIndex(a.facing), DirIndex(b.facing))
      case o => o
  }

  /** Swapping the states flips the order. */
  lemma CompareFlip(a: JourneyState, b: JourneyState)
    ensures Compare(b, a) == Flip(Compare(a, b))
  {
  }

  /** The order agrees with equality: it is total. */
  lemma CompareEqual(a: JourneyState, b: JourneyState)
    ensures Compare(a, b) == Equal <==> a == b
  {
    if Compare(a, b) == Equal {
      assert DirOf(DirIndex(a.facing)) == a.facing && DirOf(DirIndex(b.facing)) == b.facing;
    }
  }

  lemma CompareTransitive(a: JourneyState, b: JourneyState, c: JourneyState)
    requires Compare(a, b) == Greater && Compare(b, c) == Greater
    ensures Compare(a, c) == Greater
  {
  }

  /** The source's heap test: (7, 15) and (7, 13) with heat loss 2 come out before (3, 2)
      with heat loss 4, the larger position first. */
  lemma HeapOrderExample()
    ensures Compare(JourneyState(7 * 141 + 15, South, 2), JourneyState(7 * 141 + 13, South, 2)) == Greater
    ensures Compare(JourneyState(7 * 141 + 13, South, 2), JourneyState(3 * 141 + 2, East, 4)) == Greater
  {
  }

  /** `BinaryHeap::pop`: takes out a greatest state, which is one with the least heat loss. */
  method Pop(queue: seq<JourneyState>) returns (top: JourneyState, rest: seq<JourneyState>)
    requires queue != []
    ensures exists i :: 0 <= i < |queue| && top == queue[i] && rest == queue[..i] + queue[i + 1..]
    ensures forall s :: s in queue ==> Compare(top, s) != Less && top.heatLoss <= s.heatLoss
    ensures forall s :: s in queue ==> s == top || s in rest
  {
    var best := 0;
    for i := 1 to |queue|
      invariant best < i
      invariant forall j :: 0 <= j < i ==> Compare(queue[best], queue[j]) != Less
    {
      CompareFlip(queue[i], queue[best]);
      if Compare(queue[i], queue[best]) == Greater {
        forall j | 0 <= j < i
          ensures Compare(queue[i], queue[j]) != Less
        {
          CompareEqual(queue[best], queue[j]);
          if Compare(queue[best], queue[j]) == Greater {
            CompareTransitive(queue[i], queue[best], queue[j]);
          }
        }
        best := i;
      } else {
        CompareEqual(queue[best], queue[i]);
      }
    }
    top := queue[best];
    rest := queue[..best] + queue[best + 1..];
    forall s | s in queue
      ensures s == top || s in rest
    {
      var j :| 0 <= j < |queue| && queue[j] == s;
      if j < best {
        assert rest[j] == s;
      } else if j > best {
        assert rest[j - 1] == s;
      }
    }
  }

  // ---------------------------------------------------------------------------------------
  // The visit table

  /** The table entry of a state. */
  function Key(s: JourneyState): (k: nat)
    requires s.position < CELLS
    ensures k < KEYS
  {
    4 * s.position + DirIndex(s.facing)
  }

  /** The state a table entry stands for, with heat loss `heatLoss`. */
  function StateAt(k: nat, heatLoss: nat): (s: JourneyState)
    requires k < KEYS
    ensures s.position < CELLS && Key(s) == k && s.heatLoss == heatLoss
  {
    JourneyState(k / 4, DirOf(k % 4), heatLoss)
  }

  lemma StateAtKey(s: JourneyState)
    requires s.position < CELLS
    ensures StateAt(Key(s), s.heatLoss) == s
  {
  }

  function Min(a: nat, b: nat): nat { if a <= b then a else b }

  /** `JourneyVisitTracker`. */
  class JourneyVisitTracker {
    const visited: array<nat>

    ghost predicate Valid()
      reads this, visited
    {
      visited.Length == KEYS && forall k :: 0 <= k < KEYS ==> visited[k] <= U32_MAX
    }

    /** `new`: every entry `u32::MAX`. */
    constructor ()
      ensures Valid() && fresh(visited)
      ensures forall k :: 0 <= k < KEYS ==> visited[k] == U32_MAX
    {
      visited := new nat[KEYS](_ => U32_MAX);
    }

    /** `minimum`: the least entry over the four facings of a block (the source's `Option`
        is always `Some`, the slice having four entries). */
    function Minimum(pos: nat): (m: nat)
      requires Valid() && pos < CELLS
      reads this, visited
      ensures m in visited[4 * pos..4 * pos + 4]
      ensures forall k :: 4 * pos <= k < 4 * pos + 4 ==> m <= visited[k]
    {
      var base := 4 * pos;
      Min(Min(visited[base], visited[base + 1]), Min(visited[base + 2], visited[base + 3]))
    }

    /** `visit`: true when the entry is at most the state's heat loss; otherwise the entry
        becomes the state's heat loss. An entry never grows. */
    method Visit(state: JourneyState) returns (seen: bool)
      requires Valid() && state.position < CELLS
      modifies visited
      ensures Valid()
      ensures seen <==> old(visited[Key(state)]) <= state.heatLoss
      ensures visited[..] == if seen then old(visited[..]) else old(visited[..])[Key(state) := state.heatLoss]
      ensures visited[Key(state)] <= state.heatLoss
    {
      var key := 4 * state.position + DirIndex(state.facing);
      if visited[key] <= state.heatLoss {
        seen := true;
      } else {
        visited[key] := state.heatLoss;
        seen := false;
      }
    }
  }

  /** The source's test of the tracker: first visits of three states, a better visit, and a
      worse one, after which the block's minimum is 7. */
  method VisitTrackerExample() returns (results: seq<bool>, minimum: nat)
    ensures results == [false, false, false, false, true] && minimum == 7
  {
    var tracker := new JourneyVisitTracker();
    var a := tracker.Visit(JourneyState(2 * 141 + 3, East, 12));
    var b := tracker.Visit(JourneyState(3 * 141 + 2, East, 11));
    var c := tracker.Visit(JourneyState(2 * 141 + 3, South, 7));
    var d := tracker.Visit(JourneyState(2 * 141 + 3, East, 8));
    var e := tracker.Visit(JourneyState(2 * 141 + 3, East, 13));
    results := [a, b, c, d, e];
    minimum := tracker.Minimum(2 * 141 + 3);
  }

  // ---------------------------------------------------------------------------------------
  // The city and the moves of a crucible

  datatype City = City(grid: seq<nat>)

  predicate ValidCity(c: City)
  {
    |c.grid| == CELLS
  }

  function Row(pos: nat): nat { pos / GRID_SIZE }

  function Col(pos: nat): nat { pos % GRID_SIZE }

  /** `City::step`: the block `dist` blocks away in direction `dir`, or `None` when that
      leaves the grid. */
  function Step(pos: nat, dir: Direction, dist: nat): (r: Option<nat>)
    requires pos < CELLS
    ensures r.Some? ==> r.value < CELLS
  {
    var row := pos / GRID_SIZE;
    var col := pos % GRID_SIZE;
    match dir
    case North => if pos >= GRID_SIZE * dist then Some(pos - GRID_SIZE * dist) else None
    case East => if col + dist < GRID_SIZE then Some(pos + dist) else None
    case South => if row + dist < GRID_SIZE then Some(pos + GRID_SIZE * dist) else None
    case West => if col >= dist then Some(pos - dist) else None
  }

  /** A step stays in the grid exactly when the block's row or column leaves room for it,
      and it moves `dist` rows or `dist` columns. */
  lemma StepInGrid(pos: nat, dir: Direction, dist: nat)
    requires pos < CELLS
    ensures Step(pos, dir, dist).Some? <==> match dir
                                             case North => dist <= Row(pos)
                                             case South => Row(pos) + dist < GRID_SIZE
                                             case West => dist <= Col(pos)
                                             case East => Col(pos) + dist < GRID_SIZE
    ensures Step(pos, dir, dist).Some? ==>
              var next := Step(pos, dir, dist).value;
              match dir
              case North => next + GRID_SIZE * dist == pos
              case South => next == pos + GRID_SIZE * dist
              case West => next + dist == pos
              case East => next == pos + dist
  {
  }

  /** A crucible that can go `dist` blocks can go fewer. */
  lemma StepShorter(pos: nat, dir: Direction, dist: nat, shorter: nat)
    requires pos < CELLS && Step(pos, dir, dist).Some? && shorter <= dist
    ensures Step(pos, dir, shorter).Some?
  {
  }

  /** The source's tests of `step`, one block in each direction, in the grid and off it. */
  lemma StepExamples()
    ensures Step(2 * 141 + 5, North, 1) == Some(1 * 141 + 5)
    ensures Step(3 * 141 + 7, East, 1) == Some(3 * 141 + 8)
    ensures Step(1 * 141 + 13, South, 1) == Some(2 * 141 + 13)
    ensures Step(0 * 141 + 9, West, 1) == Some(0 * 141 + 8)
    ensures Step(0 * 141 + 4, North, 1) == None
    ensures Step(4 * 141 + 140, East, 1) == None
    ensures Step(140 * 141 + 12, South, 1) == None
    ensures Step(1 * 141 + 0, West, 1) == None
  {
  }

  /** The heat lost entering the blocks 1 to `dist` blocks away in direction `facing`. */
  function ExtraLoss(c: City, position: nat, facing: Direction, dist: nat): nat
    requires ValidCity(c) && position < CELLS
  {
    if dist == 0 then 0
    else ExtraLoss(c, position, facing, dist - 1)
         + match Step(position, facing, dist) case Some(p) => c.grid[p] case None => 0
  }

  /** The states `states_in_directions` yields for one direction, up to `dist` blocks. */
  function StatesAlong(c: City, position: nat, heatLoss: nat, facing: Direction, minDist: nat, dist: nat): (r: seq<JourneyState>)
    requires ValidCity(c) && position < CELLS
    ensures forall s :: s in r ==> s.position < CELLS && s.facing == facing && s.heatLoss >= heatLoss
  {
    if dist == 0 then []
    else
      StatesAlong(c, position, heatLoss, facing, minDist, dist - 1)
      + match Step(position, facing, dist)
        case Some(p) =>
          if dist >= minDist then [JourneyState(p, facing, heatLoss + ExtraLoss(c, position, facing, dist))] else []
        case None => []
  }

  /** The state `dist` blocks on, when the move stays in the grid. */
  function Moved(c: City, position: nat, heatLoss: nat, facing: Direction, dist: nat): JourneyState
    requires ValidCity(c) && position < CELLS && Step(position, facing, dist).Some?
  {
    JourneyState(Step(position, facing, dist).value, facing, heatLoss + ExtraLoss(c, position, facing, dist))
  }

  /** The states for one direction are exactly the moves of `minDist` to `maxDist` blocks
      that stay in the grid, each carrying the heat of every block entered on the way. */
  lemma {:induction false} StatesAlongMembers(c: City, position: nat, heatLoss: nat, facing: Direction, minDist: nat, maxDist: nat, s: JourneyState)
    requires ValidCity(c) && position < CELLS
    ensures s in StatesAlong(c, position, heatLoss, facing, minDist, maxDist) <==>
              exists d :: 1 <= d && minDist <= d <= maxDist && Step(position, facing, d).Some?
                          && s == Moved(c, position, heatLoss, facing, d)
  {
    if maxDist > 0 {
      StatesAlongMembers(c, position, heatLoss, facing, minDist, maxDist - 1, s);
      if s in StatesAlong(c, position, heatLoss, facing, minDist, maxDist)
         && s !in StatesAlong(c, position, heatLoss, facing, minDist, maxDist - 1) {
        assert s == Moved(c, position, heatLoss, facing, maxDist);
      }
    }
  }

  /** The states for a list of directions, one direction after another. */
  function StatesFacing(c: City, position: nat, heatLoss: nat, directions: seq<Direction>, minDist: nat, maxDist: nat): (r: seq<JourneyState>)
    requires ValidCity(c) && position < CELLS
    ensures forall s :: s in r ==> s.position < CELLS && s.facing in directions && s.heatLoss >= heatLoss
  {
    if directions == [] then []
    else StatesFacing(c, position, heatLoss, directions[..|directions| - 1], minDist, maxDist)
         + StatesAlong(c, position, heatLoss, directions[|directions| - 1], minDist, maxDist)
  }

  lemma {:induction false} StatesFacingMembers(c: City, position: nat, heatLoss: nat, directions: seq<Direction>, minDist: nat, maxDist: nat, s: JourneyState)
    requires ValidCity(c) && position < CELLS
    ensures s in StatesFacing(c, position, heatLoss, directions, minDist, maxDist) <==>
              s.facing in directions && s in StatesAlong(c, position, heatLoss, s.facing, minDist, maxDist)
  {
    if directions != [] {
      var last := directions[|directions| - 1];
      var init := directions[..|directions| - 1];
      StatesFacingMembers(c, position, heatLoss, init, minDist, maxDist, s);
      assert directions == init + [last];
    }
  }

  /** `initial_states`: the moves east and south from the top-left block, with no heat lost. */
  function InitialStates(c: City, minDist: nat, maxDist: nat): seq<JourneyState>
    requires ValidCity(c)
  {
    StatesFacing(c, 0, 0, [East, South], minDist, maxDist)
  }

  /** `reachable_states`: the moves after turning left or right. */
  function ReachableStates(c: City, s: JourneyState, minDist: nat, maxDist: nat): (r: seq<JourneyState>)
    requires ValidCity(c) && s.position < CELLS
    ensures forall n :: n in r ==> n.position < CELLS && n.heatLoss >= s.heatLoss
  {
    StatesFacing(c, s.position, s.heatLoss, [TurnLeft(s.facing), TurnRight(s.facing)], minDist, maxDist)
  }

  /** A crucible only ever turns: it never goes on straight nor turns back. */
  lemma ReachableTurns(c: City, s: JourneyState, minDist: nat, maxDist: nat, n: JourneyState)
    requires ValidCity(c) && s.position < CELLS && n in ReachableStates(c, s, minDist, maxDist)
    ensures n.facing == TurnLeft(s.facing) || n.facing == TurnRight(s.facing)
    ensures n.facing != s.facing && n.facing != TurnLeft(TurnLeft(s.facing))
  {
  }

  /** The moves from a state do not depend on the heat already lost, which they only add to. */
  lemma ReachableShift(c: City, s: JourneyState, minDist: nat, maxDist: nat, n: JourneyState, heatLoss: nat)
    requires ValidCity(c) && s.position < CELLS && n in ReachableStates(c, s, minDist, maxDist)
    ensures JourneyState(n.position, n.facing, n.heatLoss - s.heatLoss + heatLoss)
            in ReachableStates(c, s.(heatLoss := heatLoss), minDist, maxDist)
  {
    var directions := [TurnLeft(s.facing), TurnRight(s.facing)];
    var shifted := JourneyState(n.position, n.facing, n.heatLoss - s.heatLoss + heatLoss);
    StatesFacingMembers(c, s.position, s.heatLoss, directions, minDist, maxDist, n);
    StatesAlongMembers(c, s.position, s.heatLoss, n.facing, minDist, maxDist, n);
    var d :| 1 <= d && minDist <= d <= maxDist && Step(s.position, n.facing, d).Some?
             && n == Moved(c, s.position, s.heatLoss, n.facing, d);
    assert shifted == Moved(c, s.position, heatLoss, n.facing, d);
    StatesAlongMembers(c, s.position, heatLoss, n.facing, minDist, maxDist, shifted);
    StatesFacingMembers(c, s.position, heatLoss, directions, minDist, maxDist, shifted);
  }

  /** The loop of `states_in_directions` for one direction: extra loss accumulated over every
      block entered, a state pushed for each distance from `min_dist` on. */
  method StatesInDirection(c: City, position: nat, heatLoss: nat, facing: Direction, minDist: nat, maxDist: nat)
    returns (states: seq<JourneyState>)
    requires ValidCity(c) && position < CELLS
    ensures states == StatesAlong(c, position, heatLoss, facing, minDist, maxDist)
  {
    states := [];
    var extraLoss := 0;
    for dist := 1 to maxDist + 1
      invariant states == StatesAlong(c, position, heatLoss, facing, minDist, dist - 1)
      invariant extraLoss == ExtraLoss(c, position, facing, dist - 1)
    {
      var next := Step(position, facing, dist);
      if next.Some? {
        extraLoss := extraLoss + c.grid[next.value];
        if dist >= minDist {
          states := states + [JourneyState(next.value, facing, heatLoss + extraLoss)];
        }
      }
    }
  }

  /** `states_in_directions`: the states of each direction in turn. */
  method StatesInDirections(c: City, position: nat, heatLoss: nat, directions: seq<Direction>, minDist: nat, maxDist: nat)
    returns (states: seq<JourneyState>)
    requires ValidCity(c) && position < CELLS
    ensures states == StatesFacing(c, position, heatLoss, directions, minDist, maxDist)
  {
    states := [];
    for i := 0 to |directions|
      invariant states == StatesFacing(c, position, heatLoss, directions[..i], minDist, maxDist)
    {
      var along := StatesInDirection(c, position, heatLoss, directions[i], minDist, maxDist);
      assert directions[..i + 1][..i] == directions[..i];
      states := states + along;
    }
    assert directions[..|directions|] == directions;
  }

  // ---------------------------------------------------------------------------------------
  // Journeys

  /** The moves of a crucible as a function value: the search below is stated over any
      `initial` states and `moves`, and only the final bound uses what these moves are. */
  function Moves(c: City, minDist: nat, maxDist: nat): JourneyState -> seq<JourneyState>
    requires ValidCity(c)
  {
    (s: JourneyState) => if s.position < CELLS then ReachableStates(c, s, minDist, maxDist) else []
  }

  /** Every state and every move lies in the grid, and a move loses heat on top of its
      state's. */
  ghost predicate Inside(initial: seq<JourneyState>, moves: JourneyState -> seq<JourneyState>)
  {
    (forall s :: s in initial ==> s.position < CELLS)
    && forall s, n :: n in moves(s) ==> n.position < CELLS && n.heatLoss >= s.heatLoss
  }

  lemma MovesInside(c: City, minDist: nat, maxDist: nat)
    requires ValidCity(c)
    ensures Inside(InitialStates(c, minDist, maxDist), Moves(c, minDist, maxDist))
  {
  }

  /** A journey: an initial state, then each time a move of the state before. */
  ghost predicate Journey(initial: seq<JourneyState>, moves: JourneyState -> seq<JourneyState>, js: seq<JourneyState>)
  {
    js != [] && js[0] in initial && forall i :: 0 <= i < |js| - 1 ==> js[i + 1] in moves(js[i])
  }

  /** Some journey ends in state `s`. */
  ghost predicate Reached(initial: seq<JourneyState>, moves: JourneyState -> seq<JourneyState>, s: JourneyState)
  {
    exists js :: Journey(initial, moves, js) && js[|js| - 1] == s
  }

  lemma ReachedInitial(initial: seq<JourneyState>, moves: JourneyState -> seq<JourneyState>, s: JourneyState)
    requires s in initial
    ensures Reached(initial, moves, s)
  {
    assert Journey(initial, moves, [s]);
  }

  lemma ReachedStep(initial: seq<JourneyState>, moves: JourneyState -> seq<JourneyState>, s: JourneyState, n: JourneyState)
    requires Reached(initial, moves, s) && n in moves(s)
    ensures Reached(initial, moves, n)
  {
    var js :| Journey(initial, moves, js) && js[|js| - 1] == s;
    var js' := js + [n];
    forall i | 0 <= i < |js'| - 1
      ensures js'[i + 1] in moves(js'[i])
    {
      if i < |js| - 1 {
        assert js'[i] == js[i] && js'[i + 1] == js[i + 1];
      }
    }
    assert Journey(initial, moves, js');
  }

  /** Every state of a journey lies in the grid. */
  lemma JourneyInside(initial: seq<JourneyState>, moves: JourneyState -> seq<JourneyState>, js: seq<JourneyState>, i: nat)
    requires Inside(initial, moves) && Journey(initial, moves, js) && i < |js|
    ensures js[i].position < CELLS
  {
    if i > 0 {
      assert js[i] in moves(js[i - 1]);
    }
  }

  // ---------------------------------------------------------------------------------------
  // The search

  /** Every entry is at most `u32::MAX`. */
  ghost predicate Bounded(t: seq<nat>)
  {
    |t| == KEYS && forall k :: 0 <= k < KEYS ==> t[k] <= U32_MAX
  }

  /** Every entry below `u32::MAX` is the heat loss of a journey to its block and facing. */
  ghost predicate TableSound(initial: seq<JourneyState>, moves: JourneyState -> seq<JourneyState>, t: seq<nat>)
    requires |t| == KEYS
  {
    forall k :: 0 <= k < KEYS && t[k] < U32_MAX ==> Reached(initial, moves, StateAt(k, t[k]))
  }

  /** Every state queued lies in the grid and ends a journey. */
  ghost predicate QueueSound(initial: seq<JourneyState>, moves: JourneyState -> seq<JourneyState>, queue: seq<JourneyState>)
  {
    forall s :: s in queue ==> s.position < CELLS && Reached(initial, moves, s)
  }

  /** None of the states `ss` would improve the table. */
  ghost predicate NoBetter(t: seq<nat>, ss: seq<JourneyState>)
    requires |t| == KEYS
  {
    forall n :: n in ss ==> n.position < CELLS && t[Key(n)] <= n.heatLoss
  }

  /** The state of every entry below `u32::MAX` is still queued, or none of its moves would
      improve the table, or it is the state `s` being expanded. */
  ghost predicate Waiting(moves: JourneyState -> seq<JourneyState>, t: seq<nat>, queue: seq<JourneyState>, s: Option<JourneyState>)
    requires |t| == KEYS
  {
    forall k :: 0 <= k < KEYS && t[k] < U32_MAX ==>
      StateAt(k, t[k]) in queue || NoBetter(t, moves(StateAt(k, t[k]))) || Some(StateAt(k, t[k])) == s
  }

  /** Between two pops nothing is being expanded. */
  ghost predicate Pending(moves: JourneyState -> seq<JourneyState>, t: seq<nat>, queue: seq<JourneyState>)
    requires |t| == KEYS
  {
    Waiting(moves, t, queue, None)
  }

  /** The state of the search between two pops. */
  ghost predicate Searching(initial: seq<JourneyState>, moves: JourneyState -> seq<JourneyState>, t: seq<nat>, queue: seq<JourneyState>)
  {
    Bounded(t) && TableSound(initial, moves, t) && QueueSound(initial, moves, queue)
    && NoBetter(t, initial) && Pending(moves, t, queue)
  }

  /** The state of the search while the moves `next` of the popped state `s` are visited:
      the first `i` of them are no better than the table, and `s` itself may be neither
      queued nor done. */
  ghost predicate Expanding(initial: seq<JourneyState>, moves: JourneyState -> seq<JourneyState>, t: seq<nat>,
                            queue: seq<JourneyState>, s: JourneyState, next: seq<JourneyState>, i: nat)
  {
    Bounded(t) && TableSound(initial, moves, t) && QueueSound(initial, moves, queue) && NoBetter(t, initial)
    && Reached(initial, moves, s) && next == moves(s) && i <= |next| && NoBetter(t, next[..i])
    && Waiting(moves, t, queue, Some(s))
  }

  /** The state of the search while the initial states are visited. */
  ghost predicate Seeding(initial: seq<JourneyState>, moves: JourneyState -> seq<JourneyState>, t: seq<nat>, queue: seq<JourneyState>, i: nat)
  {
    Bounded(t) && TableSound(initial, moves, t) && QueueSound(initial, moves, queue)
    && i <= |initial| && NoBetter(t, initial[..i]) && Pending(moves, t, queue)
  }

  /** Lowering an entry keeps every state that was no better no better. */
  lemma NoBetterLower(t: seq<nat>, k: nat, v: nat, ss: seq<JourneyState>)
    requires |t| == KEYS && k < KEYS && v <= t[k] && NoBetter(t, ss)
    ensures NoBetter(t[k := v], ss)
  {
  }

  /** Lowering the entry of state `n` to its heat loss, with `n` queued, keeps every entry
      below `u32::MAX` queued or done. */
  lemma PendingLower(moves: JourneyState -> seq<JourneyState>, t: seq<nat>, queue: seq<JourneyState>,
                     n: JourneyState, s: Option<JourneyState>)
    requires |t| == KEYS && n.position < CELLS && n.heatLoss < t[Key(n)]
    requires Waiting(moves, t, queue, s)
    ensures Waiting(moves, t[Key(n) := n.heatLoss], queue + [n], s)
  {
    var t' := t[Key(n) := n.heatLoss];
    StateAtKey(n);
    forall k | 0 <= k < KEYS && t'[k] < U32_MAX
      ensures StateAt(k, t'[k]) in queue + [n] || NoBetter(t', moves(StateAt(k, t'[k]))) || Some(StateAt(k, t'[k])) == s
    {
      if k != Key(n) && StateAt(k, t[k]) !in queue && Some(StateAt(k, t[k])) != s {
        NoBetterLower(t, Key(n), n.heatLoss, moves(StateAt(k, t[k])));
      }
    }
  }

  lemma SeedStart(initial: seq<JourneyState>, moves: JourneyState -> seq<JourneyState>, t: seq<nat>)
    requires |t| == KEYS && forall k :: 0 <= k < KEYS ==> t[k] == U32_MAX
    ensures Seeding(initial, moves, t, [], 0)
  {
  }

  /** Visiting initial state `i`: it is settled, and queued when it improved the table. */
  lemma SeedStep(initial: seq<JourneyState>, moves: JourneyState -> seq<JourneyState>, t: seq<nat>, queue: seq<JourneyState>, i: nat)
    requires Inside(initial, moves) && Seeding(initial, moves, t, queue, i) && i < |initial|
    ensures initial[i].position < CELLS
    ensures t[Key(initial[i])] <= initial[i].heatLoss ==> Seeding(initial, moves, t, queue, i + 1)
    ensures t[Key(initial[i])] > initial[i].heatLoss ==>
              Seeding(initial, moves, t[Key(initial[i]) := initial[i].heatLoss], queue + [initial[i]], i + 1)
  {
    var s := initial[i];
    assert s in initial;
    assert initial[..i + 1] == initial[..i] + [s];
    ReachedInitial(initial, moves, s);
    if t[Key(s)] > s.heatLoss {
      var t' := t[Key(s) := s.heatLoss];
      StateAtKey(s);
      PendingLower(moves, t, queue, s, None);
      NoBetterLower(t, Key(s), s.heatLoss, initial[..i]);
    }
  }

  lemma SeedDone(initial: seq<JourneyState>, moves: JourneyState -> seq<JourneyState>, t: seq<nat>, queue: seq<JourneyState>)
    requires Seeding(initial, moves, t, queue, |initial|)
    ensures Searching(initial, moves, t, queue)
  {
    assert initial[..|initial|] == initial;
  }

  /** Popping `s`: the search goes on with `s` out of the queue and its moves to visit. */
  lemma PopStep(initial: seq<JourneyState>, moves: JourneyState -> seq<JourneyState>, t: seq<nat>,
                queue: seq<JourneyState>, s: JourneyState, rest: seq<JourneyState>)
    requires Searching(initial, moves, t, queue)
    requires s in queue && forall x :: x in queue ==> x == s || x in rest
    requires forall x :: x in rest ==> x in queue
    ensures Expanding(initial, moves, t, rest, s, moves(s), 0)
  {
  }

  /** Visiting move `i` of the popped state: it is then no better than the table, and it is
      queued when it improved the table. */
  lemma ExpandStep(initial: seq<JourneyState>, moves: JourneyState -> seq<JourneyState>, t: seq<nat>,
                   queue: seq<JourneyState>, s: JourneyState, next: seq<JourneyState>, i: nat)
    requires Inside(initial, moves) && Expanding(initial, moves, t, queue, s, next, i) && i < |next|
    ensures next[i].position < CELLS
    ensures t[Key(next[i])] <= next[i].heatLoss ==> Expanding(initial, moves, t, queue, s, next, i + 1)
    ensures t[Key(next[i])] > next[i].heatLoss ==>
              Expanding(initial, moves, t[Key(next[i]) := next[i].heatLoss], queue + [next[i]], s, next, i + 1)
  {
    if t[Key(next[i])] > next[i].heatLoss {
      ExpandLower(initial, moves, t, queue, s, next, i);
    } else {
      assert next[i] in moves(s);
      assert next[..i + 1] == next[..i] + [next[i]];
    }
  }

  /** Visiting a move of the popped state that improves the table. */
  lemma ExpandLower(initial: seq<JourneyState>, moves: JourneyState -> seq<JourneyState>, t: seq<nat>,
                    queue: seq<JourneyState>, s: JourneyState, next: seq<JourneyState>, i: nat)
    requires Inside(initial, moves) && Expanding(initial, moves, t, queue, s, next, i) && i < |next|
    requires next[i].position < CELLS && t[Key(next[i])] > next[i].heatLoss
    ensures Expanding(initial, moves, t[Key(next[i]) := next[i].heatLoss], queue + [next[i]], s, next, i + 1)
  {
    var n := next[i];
    assert n in moves(s);
    assert next[..i + 1] == next[..i] + [n];
    ReachedStep(initial, moves, s, n);
    TableSoundLower(initial, moves, t, n);
    PendingLower(moves, t, queue, n, Some(s));
    NoBetterLower(t, Key(n), n.heatLoss, initial);
    NoBetterLower(t, Key(n), n.heatLoss, next[..i]);
  }

  /** Lowering the entry of a state that ends a journey to its heat loss keeps the table sound
      and bounded, and queueing it keeps the queue sound. */
  lemma TableSoundLower(initial: seq<JourneyState>, moves: JourneyState -> seq<JourneyState>, t: seq<nat>, n: JourneyState)
    requires Bounded(t) && TableSound(initial, moves, t)
    requires n.position < CELLS && n.heatLoss < t[Key(n)] && Reached(initial, moves, n)
    ensures Bounded(t[Key(n) := n.heatLoss]) && TableSound(initial, moves, t[Key(n) := n.heatLoss])
  {
    StateAtKey(n);
  }

  /** Every move of the popped state visited: none would improve the table, and the search
      goes on. */
  lemma ExpandDone(initial: seq<JourneyState>, moves: JourneyState -> seq<JourneyState>, t: seq<nat>,
                   queue: seq<JourneyState>, s: JourneyState, next: seq<JourneyState>)
    requires Expanding(initial, moves, t, queue, s, next, |next|)
    ensures Searching(initial, moves, t, queue)
  {
    assert next[..|next|] == next;
  }

  /** The moves from a state with less heat lost are at least as good, block for block. */
  lemma MovesShift(c: City, minDist: nat, maxDist: nat, t: seq<nat>, s: JourneyState, n: JourneyState, heatLoss: nat)
    requires ValidCity(c) && |t| == KEYS && s.position < CELLS
    requires n in Moves(c, minDist, maxDist)(s)
    requires NoBetter(t, Moves(c, minDist, maxDist)(s.(heatLoss := heatLoss)))
    ensures n.position < CELLS && t[Key(n)] <= n.heatLoss - s.heatLoss + heatLoss
  {
    ReachableShift(c, s, minDist, maxDist, n, heatLoss);
    var shifted := JourneyState(n.position, n.facing, n.heatLoss - s.heatLoss + heatLoss);
    assert shifted in Moves(c, minDist, maxDist)(s.(heatLoss := heatLoss));
  }

  /** With nothing left to expand, no journey ends better than the table says. */
  lemma {:induction false} JourneyBound(c: City, minDist: nat, maxDist: nat, t: seq<nat>, js: seq<JourneyState>, i: nat)
    requires ValidCity(c)
    requires Searching(InitialStates(c, minDist, maxDist), Moves(c, minDist, maxDist), t, [])
    requires Journey(InitialStates(c, minDist, maxDist), Moves(c, minDist, maxDist), js) && i < |js|
    ensures js[i].position < CELLS && t[Key(js[i])] <= js[i].heatLoss
  {
    var initial, moves := InitialStates(c, minDist, maxDist), Moves(c, minDist, maxDist);
    MovesInside(c, minDist, maxDist);
    JourneyInside(initial, moves, js, i);
    if i == 0 {
      assert js[0] in initial;
    } else {
      JourneyBound(c, minDist, maxDist, t, js, i - 1);
      var s := js[i - 1];
      var n := js[i];
      assert n in moves(s);
      var k := Key(s);
      if t[k] < U32_MAX {
        StateAtKey(s);
        assert StateAt(k, t[k]) == s.(heatLoss := t[k]);
        MovesShift(c, minDist, maxDist, t, s, n, t[k]);
      }
    }
  }

  /** With nothing left to expand, every state a journey reaches is in the grid and no
      better than the table. */
  lemma SearchDone(c: City, minDist: nat, maxDist: nat, t: seq<nat>)
    requires ValidCity(c)
    requires Searching(InitialStates(c, minDist, maxDist), Moves(c, minDist, maxDist), t, [])
    ensures forall s :: Reached(InitialStates(c, minDist, maxDist), Moves(c, minDist, maxDist), s) ==>
              s.position < CELLS && t[Key(s)] <= s.heatLoss
  {
    forall s | Reached(InitialStates(c, minDist, maxDist), Moves(c, minDist, maxDist), s)
      ensures s.position < CELLS && t[Key(s)] <= s.heatLoss
    {
      var js :| Journey(InitialStates(c, minDist, maxDist), Moves(c, minDist, maxDist), js) && js[|js| - 1] == s;
      JourneyBound(c, minDist, maxDist, t, js, |js| - 1);
    }
  }

  /** The sum of the entries, which every improvement lowers. */
  function TableSum(t: seq<nat>): nat
  {
    if t == [] then 0 else TableSum(t[..|t| - 1]) + t[|t| - 1]
  }

  lemma {:induction false} TableSumUpdate(t: seq<nat>, k: nat, v: nat)
    requires k < |t|
    ensures TableSum(t[k := v]) + t[k] == TableSum(t) + v
    decreases |t|
  {
    var u := t[k := v];
    if k < |t| - 1 {
      assert u[..|u| - 1] == t[..|t| - 1][k := v];
      TableSumUpdate(t[..|t| - 1], k, v);
    } else {
      assert u[..|u| - 1] == t[..|t| - 1];
    }
  }

  /** Once nothing is left to expand, the least entry of the bottom-right block is the least
      heat loss of any journey there. */
  lemma LeastAtTarget(c: City, minDist: nat, maxDist: nat, t: seq<nat>, r: nat)
    requires ValidCity(c)
    requires Searching(InitialStates(c, minDist, maxDist), Moves(c, minDist, maxDist), t, [])
    requires r in t[4 * (CELLS - 1)..4 * (CELLS - 1) + 4]
    requires forall k :: 4 * (CELLS - 1) <= k < 4 * (CELLS - 1) + 4 ==> r <= t[k]
    ensures r <= U32_MAX
    ensures forall s: JourneyState :: s.position == CELLS - 1 && Reached(InitialStates(c, minDist, maxDist), Moves(c, minDist, maxDist), s)
                                      ==> r <= s.heatLoss
    ensures r < U32_MAX ==> exists s: JourneyState :: s.position == CELLS - 1 && s.heatLoss == r
                                                      && Reached(InitialStates(c, minDist, maxDist), Moves(c, minDist, maxDist), s)
  {
    SearchDone(c, minDist, maxDist, t);
    var k :| 4 * (CELLS - 1) <= k < 4 * (CELLS - 1) + 4 && r == t[k];
    forall s: JourneyState | s.position == CELLS - 1 && Reached(InitialStates(c, minDist, maxDist), Moves(c, minDist, maxDist), s)
      ensures r <= s.heatLoss
    {
      assert Key(s) == 4 * (CELLS - 1) + DirIndex(s.facing);
    }
    if r < U32_MAX {
      assert StateAt(k, r).position == CELLS - 1;
    }
  }

  /** The first loop of `minimal_heat_loss`: every initial state visited, and queued when it
      improved the table. */
  method Seed(visited: JourneyVisitTracker, initial: seq<JourneyState>, ghost moves: JourneyState -> seq<JourneyState>)
    returns (queue: seq<JourneyState>)
    requires visited.Valid() && forall k :: 0 <= k < KEYS ==> visited.visited[k] == U32_MAX
    requires Inside(initial, moves)
    modifies visited.visited
    ensures visited.Valid() && Searching(initial, moves, visited.visited[..], queue)
  {
    queue := [];
    SeedStart(initial, moves, visited.visited[..]);
    for i := 0 to |initial|
      invariant visited.Valid()
      invariant Seeding(initial, moves, visited.visited[..], queue, i) == true
    {
      SeedStep(initial, moves, visited.visited[..], queue, i);
      var seen := visited.Visit(initial[i]);
      if !seen {
        queue := queue + [initial[i]];
      }
    }
    SeedDone(initial, moves, visited.visited[..], queue);
  }

  /** The inner loop of `minimal_heat_loss`: every move of the popped state visited, and
      queued when it improved the table. The table's sum drops unless nothing changed. */
  method Expand(visited: JourneyVisitTracker, initial: seq<JourneyState>, ghost moves: JourneyState -> seq<JourneyState>,
                queue: seq<JourneyState>, state: JourneyState, reachable: seq<JourneyState>)
    returns (queue': seq<JourneyState>)
    requires visited.Valid() && Inside(initial, moves)
    requires Expanding(initial, moves, visited.visited[..], queue, state, reachable, 0)
    modifies visited.visited
    ensures visited.Valid() && Searching(initial, moves, visited.visited[..], queue')
    ensures TableSum(visited.visited[..]) < TableSum(old(visited.visited[..]))
            || (visited.visited[..] == old(visited.visited[..]) && queue' == queue)
  {
    queue' := queue;
    for i := 0 to |reachable|
      invariant visited.Valid()
      invariant Expanding(initial, moves, visited.visited[..], queue', state, reachable, i) == true
      invariant TableSum(visited.visited[..]) < TableSum(old(visited.visited[..]))
                || (visited.visited[..] == old(visited.visited[..]) && queue' == queue)
    {
      ExpandStep(initial, moves, visited.visited[..], queue', state, reachable, i);
      ghost var t := visited.visited[..];
      var seen := visited.Visit(reachable[i]);
      if !seen {
        TableSumUpdate(t, Key(reachable[i]), reachable[i].heatLoss);
        queue' := queue' + [reachable[i]];
      }
    }
    ExpandDone(initial, moves, visited.visited[..], queue', state, reachable);
  }

  /** One turn of `minimal_heat_loss`'s outer loop: the best state off the heap, and each of its
      moves visited and queued when it improved the table. Either the table's sum drops, or
      the table is unchanged and the heap is one shorter. */
  method ExpandNext(c: City, minDist: nat, maxDist: nat, visited: JourneyVisitTracker, initial: seq<JourneyState>,
                    queue: seq<JourneyState>) returns (queue': seq<JourneyState>)
    requires ValidCity(c) && visited.Valid() && Inside(initial, Moves(c, minDist, maxDist)) && queue != []
    requires Searching(initial, Moves(c, minDist, maxDist), visited.visited[..], queue)
    modifies visited.visited
    ensures visited.Valid() && Searching(initial, Moves(c, minDist, maxDist), visited.visited[..], queue')
    ensures TableSum(visited.visited[..]) < TableSum(old(visited.visited[..]))
            || (TableSum(visited.visited[..]) == TableSum(old(visited.visited[..])) && |queue'| < |queue|)
  {
    ghost var moves := Moves(c, minDist, maxDist);
    var state, rest := Pop(queue);
    PopStep(initial, moves, visited.visited[..], queue, state, rest);
    var reachable := StatesInDirections(c, state.position, state.heatLoss,
                                        [TurnLeft(state.facing), TurnRight(state.facing)], minDist, maxDist);
    assert reachable == moves(state);
    queue' := Expand(visited, initial, moves, rest, state, reachable);
  }

  /** `City::minimal_heat_loss`: the least of the table's four entries for the bottom-right
      block once the heap is empty. It is at most the heat loss of every journey that ends
      there, and unless it is `u32::MAX` some journey ends there with exactly that loss. */
  method MinimalHeatLoss(c: City, minDist: nat, maxDist: nat) returns (r: nat)
    requires ValidCity(c)
    ensures r <= U32_MAX
    ensures forall s: JourneyState :: s.position == CELLS - 1 && Reached(InitialStates(c, minDist, maxDist), Moves(c, minDist, maxDist), s)
                                      ==> r <= s.heatLoss
    ensures r < U32_MAX ==> exists s: JourneyState :: s.position == CELLS - 1 && s.heatLoss == r
                                                      && Reached(InitialStates(c, minDist, maxDist), Moves(c, minDist, maxDist), s)
  {
    ghost var moves := Moves(c, minDist, maxDist);
    MovesInside(c, minDist, maxDist);
    var visited := new JourneyVisitTracker();
    var initial := StatesInDirections(c, 0, 0, [East, South], minDist, maxDist);
    var queue := Seed(visited, initial, moves);
    while queue != []
      invariant visited.Valid() && fresh(visited.visited)
      invariant Searching(initial, moves, visited.visited[..], queue) == true
      decreases TableSum(visited.visited[..]), |queue|
    {
      queue := ExpandNext(c, minDist, maxDist, visited, initial, queue);
    }
    r := visited.Minimum(CELLS - 1);
    LeastAtTarget(c, minDist, maxDist, visited.visited[..], r);
  }

  /** `loss` is the least heat loss of a journey from the top-left block to the bottom-right
      one: no such journey loses less, and below `u32::MAX` some journey loses exactly that. */
  ghost predicate LeastHeatLoss(c: City, minDist: nat, maxDist: nat, loss: nat)
  {
    && ValidCity(c)
    && loss <= U32_MAX
    && (forall s: JourneyState :: s.position == CELLS - 1 && Reached(InitialStates(c, minDist, maxDist), Moves(c, minDist, maxDist), s)
                                  ==> loss <= s.heatLoss)
    && (loss < U32_MAX ==> exists s: JourneyState :: s.position == CELLS - 1 && s.heatLoss == loss
                                                     && Reached(InitialStates(c, minDist, maxDist), Moves(c, minDist, maxDist), s))
  }

  // ---------------------------------------------------------------------------------------
  // Parsing and the two parts

  /** `char::to_digit(10)`. */
  function ParseDigit(ch: char): (r: Result<nat>)
    ensures r.Ok? <==> IsDigit(ch)
    ensures r.Ok? ==> r.value < 10
  {
    if IsDigit(ch) then Ok(DigitValue(ch)) else Err
  }

  /** `City::from_str`: every digit into cell `row * 141 + col` of a grid of zeros; any other
      character is an error. */
  method FromStr(input: String) returns (r: Result<City>)
    requires Fits(Lines(input), GRID_SIZE)
    ensures r.Err? <==> BadCharFrom(ParseDigit, Lines(input), 0, 0)
    ensures r.Ok? ==> ValidCity(r.value) && Layout(ParseDigit, GRID_SIZE, Lines(input), 0) == Ok(r.value.grid)
  {
    var grid := ReadGrid(ParseDigit, GRID_SIZE, input, 0);
    if grid.Err? {
      return Err;
    }
    r := Ok(City(grid.value));
  }

  /** `part_one`: a crucible going one to three blocks at a time. */
  method PartOne(input: String) returns (r: Option<nat>)
    requires Fits(Lines(input), GRID_SIZE)
    ensures r.None? <==> BadCharFrom(ParseDigit, Lines(input), 0, 0)
    ensures r.Some? ==> exists c :: ValidCity(c) && Layout(ParseDigit, GRID_SIZE, Lines(input), 0) == Ok(c.grid)
                                    && LeastHeatLoss(c, 1, 3, r.value)
  {
    var city := FromStr(input);
    if city.Err? {
      return None;
    }
    var loss := MinimalHeatLoss(city.value, 1, 3);
    assert LeastHeatLoss(city.value, 1, 3, loss);
    r := Some(loss);
  }

  /** `part_two`: an ultra crucible going four to ten blocks at a time. */
  method PartTwo(input: String) returns (r: Option<nat>)
    requires Fits(Lines(input), GRID_SIZE)
    ensures r.None? <==> BadCharFrom(ParseDigit, Lines(input), 0, 0)
    ensures r.Some? ==> exists c :: ValidCity(c) && Layout(ParseDigit, GRID_SIZE, Lines(input), 0) == Ok(c.grid)
                                    && LeastHeatLoss(c, 4, 10, r.value)
  {
    var city := FromStr(input);
    if city.Err? {
      return None;
    }
    var loss := MinimalHeatLoss(city.value, 4, 10);
    assert LeastHeatLoss(city.value, 4, 10, loss);
    r := Some(loss);
  }
}
