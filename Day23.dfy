/** Day 23: the longest hike across the trail map. A hike starts on the start cell with no
    cell visited, steps onto a neighbouring cell its own cell can be left towards and that it
    has not visited, marks it visited, and stops at the finish. The search keeps a queue of
    every partial hike; the model proves that it ends, that the step counts it collects are
    exactly the lengths of the simple walks from the start to the finish, and that the
    answer is the largest of them. */
module Day23 {
  import opened Wrappers
  import opened Text
  import opened Divisibility
  import opened GridText
  import opened Day23Map

  /** A map read from text: one cell for each of the 141 by 141 places. */
  predicate ValidMap(trails: seq<Trail>)
  {
    |trails| == CELLS
  }

  /** `HikeState`: where the hike is, how many steps it took, and the cells it visited. */
  datatype HikeState = HikeState(position: nat, steps: nat, visited: seq<bool>)

  /** A state on the map, with a visited flag for every cell. */
  predicate Placed(s: HikeState)
  {
    s.position < CELLS && |s.visited| == CELLS
  }

  /** The number of cells not yet visited. */
  function Unvisited(visited: seq<bool>): (n: nat)
    ensures n <= |visited|
  {
    if visited == [] then 0
    else Unvisited(visited[..|visited| - 1]) + if visited[|visited| - 1] then 0 else 1
  }

  /** Marking an unvisited cell visited leaves one cell fewer unvisited. */
  lemma {:induction false} UnvisitedMark(visited: seq<bool>, position: nat)
    requires position < |visited| && !visited[position]
    ensures Unvisited(visited[position := true]) + 1 == Unvisited(visited)
    decreases |visited|
  {
    var marked := visited[position := true];
    var last := |visited| - 1;
    assert marked[..last] == if position == last then visited[..last] else visited[..last][position := true];
    if position < last {
      UnvisitedMark(visited[..last], position);
    }
  }

  /** No cell visited at all. */
  lemma {:induction false} UnvisitedNone(n: nat)
    ensures Unvisited(seq(n, _ => false)) == n
  {
    if n > 0 {
      assert seq(n, _ => false)[..n - 1] == seq(n - 1, _ => false);
      UnvisitedNone(n - 1);
    }
  }

  /** `HikeState::visit`: a copy of the state moved to `position`, one step longer, with that
      cell marked visited; the state it was copied from is a value and stays as it was. */
  function Visit(s: HikeState, position: nat): (next: HikeState)
    requires position < |s.visited|
  {
    HikeState(position, s.steps + 1, s.visited[position := true])
  }

  /** Visiting a cell not yet visited gives a copy at that cell, one step longer, that has
      visited exactly the cells the original had and that one: it trades one unvisited cell
      for one step. */
  lemma VisitMarks(s: HikeState, position: nat)
    requires position < |s.visited| && !s.visited[position]
    ensures var next := Visit(s, position);
            && next.position == position && next.steps == s.steps + 1 && |next.visited| == |s.visited|
            && (forall q :: 0 <= q < |s.visited| ==> (next.visited[q] <==> q == position || s.visited[q]))
            && next.steps + Unvisited(next.visited) == s.steps + Unvisited(s.visited)
  {
    UnvisitedMark(s.visited, position);
  }

  /** The first start cell at or after `from`. */
  function FirstStart(trails: seq<Trail>, from: nat): (r: Option<nat>)
    requires from <= |trails|
    ensures r.None? <==> forall i :: from <= i < |trails| ==> trails[i] != Start
    ensures r.Some? ==> from <= r.value < |trails| && trails[r.value] == Start
                        && forall i :: from <= i < r.value ==> trails[i] != Start
    decreases |trails| - from
  {
    if from == |trails| then None
    else if trails[from] == Start then Some(from)
    else FirstStart(trails, from + 1)
  }

  /** `TrailMap::initial_position`: on the first start cell, with no step taken and no cell
      visited, or None when the map has no start. */
  function InitialPosition(trails: seq<Trail>): (r: Option<HikeState>)
    requires ValidMap(trails)
    ensures r.None? <==> forall i :: 0 <= i < |trails| ==> trails[i] != Start
    ensures r.Some? ==> && Placed(r.value) && trails[r.value.position] == Start
                        && (forall i :: 0 <= i < r.value.position ==> trails[i] != Start)
                        && r.value.steps == 0 && r.value.visited == seq(CELLS, _ => false)
  {
    match FirstStart(trails, 0)
    case None => None
    case Some(position) => Some(HikeState(position, 0, seq(CELLS, _ => false)))
  }

  /** A hike may step from cell `from` to cell `to`: `from` can be left in some direction and
      `to` is its neighbour that way. */
  ghost predicate Move(trails: seq<Trail>, from: nat, to: nat)
    requires from < |trails|
  {
    exists d :: CanExit(trails[from], d) && StepInDirection(from, d) == Some(to)
  }

  /** Every direction is tried. */
  lemma InCompass(d: Direction)
    ensures d in COMPASS
  {
    match d
    case North =>
    case East =>
    case South =>
    case West =>
  }

  /** The closure of `reachable_states` for one direction: the cell a hike at `s` steps to
      that way, if its own cell can be left that way, the neighbour is on the map and it is
      not yet visited. */
  function StepTo(trails: seq<Trail>, s: HikeState, direction: Direction): (r: Option<nat>)
    requires ValidMap(trails) && Placed(s)
    ensures r.Some? ==> r.value < CELLS && !s.visited[r.value]
  {
    if !CanExit(trails[s.position], direction) then None
    else match StepInDirection(s.position, direction)
      case None => None
      case Some(position) =>
        StepInGrid(s.position, direction);
        if s.visited[position] then None else Some(position)
  }

  /** The states one step on from `s`, one for each of `directions` that has a step. */
  function StepsFrom(trails: seq<Trail>, s: HikeState, directions: seq<Direction>): (next: seq<HikeState>)
    requires ValidMap(trails) && Placed(s)
    ensures |next| <= |directions|
    ensures forall c :: c in next ==> exists d :: d in directions && StepTo(trails, s, d) == Some(c.position) && c == Visit(s, c.position)
    ensures forall d :: d in directions && StepTo(trails, s, d).Some? ==> Visit(s, StepTo(trails, s, d).value) in next
  {
    if directions == [] then []
    else
      var rest := StepsFrom(trails, s, directions[1..]);
      match StepTo(trails, s, directions[0])
      case None => rest
      case Some(position) => [Visit(s, position)] + rest
  }

  /** `TrailMap::reachable_states`: the states one step on from `s`. Each moves to a cell
      not yet visited, so it has one cell fewer left to visit; and every such move is among
      them. */
  function ReachableStates(trails: seq<Trail>, s: HikeState): (next: seq<HikeState>)
    requires ValidMap(trails) && Placed(s)
    ensures |next| <= 4
    ensures forall c :: c in next ==>
              && Placed(c) && Move(trails, s.position, c.position) && !s.visited[c.position]
              && c == Visit(s, c.position) && Unvisited(c.visited) + 1 == Unvisited(s.visited)
    ensures forall position: nat :: position < CELLS && Move(trails, s.position, position) && !s.visited[position] ==>
              Visit(s, position) in next
  {
    var next := StepsFrom(trails, s, COMPASS);
    assert forall c :: c in next ==> Placed(c) && Move(trails, s.position, c.position) && Unvisited(c.visited) + 1 == Unvisited(s.visited) by {
      forall c | c in next
        ensures Placed(c) && Move(trails, s.position, c.position) && Unvisited(c.visited) + 1 == Unvisited(s.visited)
      {
        var d :| d in COMPASS && StepTo(trails, s, d) == Some(c.position) && c == Visit(s, c.position);
        UnvisitedMark(s.visited, c.position);
      }
    }
    assert forall position: nat :: position < CELLS && Move(trails, s.position, position) && !s.visited[position] ==> Visit(s, position) in next by {
      forall position: nat | position < CELLS && Move(trails, s.position, position) && !s.visited[position]
        ensures Visit(s, position) in next
      {
        var d :| CanExit(trails[s.position], d) && StepInDirection(s.position, d) == Some(position);
        InCompass(d);
        assert StepTo(trails, s, d) == Some(position);
      }
    }
    next
  }

  // ---------------------------------------------------------------------------------------
  // The hikes from a state

  /** The step counts of the hikes from `s` that end on the finish: `s`'s own when it is on
      the finish, otherwise those from the states one step on. */
  ghost function Hikes(trails: seq<Trail>, s: HikeState): set<nat>
    requires ValidMap(trails) && Placed(s)
    decreases Unvisited(s.visited)
  {
    if trails[s.position] == Finish then {s.steps}
    else set c, h | c in ReachableStates(trails, s) && h in Hikes(trails, c) :: h
  }

  /** The step counts of the hikes from the states in a queue. */
  ghost function Pending(trails: seq<Trail>, queue: seq<HikeState>): set<nat>
    requires ValidMap(trails) && forall c :: c in queue ==> Placed(c)
  {
    set c, h | c in queue && h in Hikes(trails, c) :: h
  }

  /** The cell before the `i`-th of a walk from `start`. */
  function Before(start: nat, path: seq<nat>, i: nat): nat
    requires i <= |path|
  {
    if i == 0 then start else path[i - 1]
  }

  /** Cells of the map none of which `s` visited. */
  predicate Fresh(s: HikeState, path: seq<nat>)
    requires Placed(s)
  {
    forall i :: 0 <= i < |path| ==> path[i] < CELLS && !s.visited[path[i]]
  }

  /** No cell twice. */
  predicate Distinct(path: seq<nat>)
  {
    forall i, j :: 0 <= i < j < |path| ==> path[i] != path[j]
  }

  /** Each cell linked to the one before, starting from `start`. */
  predicate Chain(link: (nat, nat) -> bool, start: nat, path: seq<nat>)
  {
    forall i :: 0 <= i < |path| ==> link(Before(start, path, i), path[i])
  }

  /** A move on the map, as a link between cells. */
  ghost function Moving(trails: seq<Trail>): (nat, nat) -> bool
  {
    (from: nat, to: nat) => from < |trails| && Move(trails, from, to)
  }

  /** The last cell, or `start` when there is none, is the finish. */
  predicate Ends(trails: seq<Trail>, start: nat, path: seq<nat>)
  {
    Before(start, path, |path|) < |trails| && trails[Before(start, path, |path|)] == Finish
  }

  /** A walk from `s`: cells of the map none of which `s` visited, no cell twice, each a move
      on from the one before starting from `s`'s cell, and ending on the finish. The start
      cell of a hike is not marked visited, so a walk from it may step back onto it once. */
  ghost predicate WalkFrom(trails: seq<Trail>, s: HikeState, path: seq<nat>)
    requires Placed(s)
  {
    Fresh(s, path) && Distinct(path) && Chain(Moving(trails), s.position, path) && Ends(trails, s.position, path)
  }

  /** A walk that starts with a step to `position` is that step followed by a walk from the
      state after it. */
  lemma FreshCons(s: HikeState, position: nat, rest: seq<nat>)
    requires Placed(s) && position < CELLS && !s.visited[position]
    ensures Fresh(s, [position] + rest) && Distinct([position] + rest) <==> Fresh(Visit(s, position), rest) && Distinct(rest)
  {
    var path := [position] + rest;
    var next := Visit(s, position);
    VisitMarks(s, position);
    if Fresh(s, path) && Distinct(path) {
      forall i | 0 <= i < |rest|
        ensures rest[i] < CELLS && !next.visited[rest[i]]
      {
        assert rest[i] == path[i + 1] && path[0] == position;
      }
      forall i, j | 0 <= i < j < |rest|
        ensures rest[i] != rest[j]
      {
        assert rest[i] == path[i + 1] && rest[j] == path[j + 1];
      }
    }
    if Fresh(next, rest) && Distinct(rest) {
      forall i | 0 <= i < |path|
        ensures path[i] < CELLS && !s.visited[path[i]]
      {
        if i > 0 {
          assert path[i] == rest[i - 1];
        }
      }
      forall i, j | 0 <= i < j < |path|
        ensures path[i] != path[j]
      {
        assert path[j] == rest[j - 1];
        if i > 0 {
          assert path[i] == rest[i - 1];
        }
      }
    }
  }

  /** A chain that starts with `position` is a link to it followed by a chain from it. */
  lemma ChainCons(link: (nat, nat) -> bool, start: nat, position: nat, rest: seq<nat>)
    ensures Chain(link, start, [position] + rest) <==> link(start, position) && Chain(link, position, rest)
  {
    var path := [position] + rest;
    assert Before(start, path, 0) == start && path[0] == position;
    assert forall i :: 0 <= i < |rest| ==> Before(start, path, i + 1) == Before(position, rest, i) && path[i + 1] == rest[i];
    if link(start, position) && Chain(link, position, rest) {
      forall i | 0 < i < |path|
        ensures link(Before(start, path, i), path[i])
      {
        assert Before(start, path, i) == Before(position, rest, i - 1) && path[i] == rest[i - 1];
      }
    }
  }

  lemma EndsCons(trails: seq<Trail>, start: nat, position: nat, rest: seq<nat>)
    ensures Ends(trails, start, [position] + rest) <==> Ends(trails, position, rest)
  {
    var path := [position] + rest;
    assert Before(start, path, |path|) == Before(position, rest, |rest|);
  }

  /** Every hike counted from `s` is the length of a walk from `s`, added to the steps taken. */
  lemma {:induction false} HikeIsWalk(trails: seq<Trail>, s: HikeState, h: nat)
    requires ValidMap(trails) && Placed(s) && h in Hikes(trails, s)
    ensures exists path :: WalkFrom(trails, s, path) && h == s.steps + |path|
    decreases Unvisited(s.visited)
  {
    if trails[s.position] == Finish {
      assert h == s.steps && Before(s.position, [], 0) == s.position;
      assert WalkFrom(trails, s, []);
    } else {
      var c :| c in ReachableStates(trails, s) && h in Hikes(trails, c);
      HikeIsWalk(trails, c, h);
      var rest :| WalkFrom(trails, c, rest) && h == c.steps + |rest|;
      var path := [c.position] + rest;
      assert WalkFrom(trails, s, path) by {
        FreshCons(s, c.position, rest);
        ChainCons(Moving(trails), s.position, c.position, rest);
        EndsCons(trails, s.position, c.position, rest);
      }
      assert h == s.steps + |path|;
    }
  }

  /** A walk from `s` that is not empty starts with a step to one of the states one step on,
      and goes on with a walk from there. */
  lemma WalkStep(trails: seq<Trail>, s: HikeState, path: seq<nat>)
    requires ValidMap(trails) && Placed(s) && WalkFrom(trails, s, path) && path != []
    ensures path[0] < CELLS && trails[s.position] != Finish
    ensures var c := Visit(s, path[0]);
            c in ReachableStates(trails, s) && Placed(c) && WalkFrom(trails, c, path[1..])
  {
    var position, rest := path[0], path[1..];
    assert path == [position] + rest;
    assert position < CELLS && !s.visited[position];
    var c := Visit(s, position);
    assert Move(trails, s.position, position) by {
      ChainCons(Moving(trails), s.position, position, rest);
    }
    assert WalkFrom(trails, c, rest) by {
      FreshCons(s, position, rest);
      ChainCons(Moving(trails), s.position, position, rest);
      EndsCons(trails, s.position, position, rest);
    }
  }

  /** Every walk from `s` is counted among its hikes: `h` is its length added to the steps
      taken. */
  lemma {:induction false} WalkIsHike(trails: seq<Trail>, s: HikeState, path: seq<nat>, h: nat)
    requires ValidMap(trails) && Placed(s) && WalkFrom(trails, s, path) && h == s.steps + |path|
    ensures h in Hikes(trails, s)
    decreases |path|
  {
    if path == [] {
      assert Before(s.position, path, 0) == s.position;
      assert trails[s.position] == Finish;
    } else {
      WalkStep(trails, s, path);
      var c := Visit(s, path[0]);
      WalkIsHike(trails, c, path[1..], h);
      assert h in Hikes(trails, s);
    }
  }

  /** The hikes from `s` take at least its steps so far and at most one more for each cell it
      has not visited. */
  lemma {:induction false} HikesBounded(trails: seq<Trail>, s: HikeState)
    requires ValidMap(trails) && Placed(s)
    ensures forall h :: h in Hikes(trails, s) ==> s.steps <= h <= s.steps + Unvisited(s.visited)
    decreases Unvisited(s.visited)
  {
    if trails[s.position] != Finish {
      forall c | c in ReachableStates(trails, s)
        ensures forall h :: h in Hikes(trails, c) ==> s.steps <= h <= s.steps + Unvisited(s.visited)
      {
        HikesBounded(trails, c);
      }
    }
  }

  // ---------------------------------------------------------------------------------------
  // The search

  /** The largest of some step counts, or None when there are none. */
  function Max(hikes: seq<nat>): (r: Option<nat>)
    ensures r.None? <==> hikes == []
    ensures r.Some? ==> r.value in hikes && forall h :: h in hikes ==> h <= r.value
  {
    if hikes == [] then None
    else
      assert forall h :: h in hikes <==> h == hikes[0] || h in hikes[1..];
      match Max(hikes[1..])
      case None => Some(hikes[0])
      case Some(m) => Some(if hikes[0] > m then hikes[0] else m)
  }

  /** `r` is the longest hike on the map: None without a start or without any hike to the
      finish, otherwise the largest step count of a hike from the start. */
  ghost predicate IsLongestHike(trails: seq<Trail>, r: Option<nat>)
    requires ValidMap(trails)
  {
    match InitialPosition(trails)
    case None => r.None?
    case Some(initial) =>
      && (r.None? <==> Hikes(trails, initial) == {})
      && (r.Some? ==> r.value in Hikes(trails, initial) && forall h :: h in Hikes(trails, initial) ==> h <= r.value)
  }

  /** The longest hike is the longest walk from the start to the finish, and it is no longer
      than the map has cells, so the source's 32-bit step count never overflows. */
  lemma LongestWalk(trails: seq<Trail>, r: Option<nat>)
    requires ValidMap(trails) && IsLongestHike(trails, r)
    ensures InitialPosition(trails).None? ==> r.None?
    ensures InitialPosition(trails).Some? ==>
              var initial := InitialPosition(trails).value;
              && (r.None? <==> forall path :: !WalkFrom(trails, initial, path))
              && (r.Some? ==> && (exists path :: WalkFrom(trails, initial, path) && r.value == |path|)
                              && (forall path :: WalkFrom(trails, initial, path) ==> |path| <= r.value)
                              && r.value <= CELLS)
  {
    if InitialPosition(trails).Some? {
      var initial := InitialPosition(trails).value;
      forall path | WalkFrom(trails, initial, path)
        ensures |path| in Hikes(trails, initial)
      {
        WalkIsHike(trails, initial, path, |path|);
      }
      if r.Some? {
        HikeIsWalk(trails, initial, r.value);
        HikesBounded(trails, initial);
        UnvisitedNone(CELLS);
      } else {
        forall path | WalkFrom(trails, initial, path)
          ensures false
        {
        }
      }
    }
  }

  /** The weight a queue of states must lose on every turn of the search: each state counts
      5 to the power of the cells it has left to visit. */
  function Weight(queue: seq<HikeState>): nat
  {
    if queue == [] then 0 else Power5(Unvisited(queue[0].visited)) + Weight(queue[1..])
  }

  function Power5(n: nat): (p: nat)
    ensures p >= 1
  {
    if n == 0 then 1 else 5 * Power5(n - 1)
  }

  lemma {:induction false} WeightAppend(a: seq<HikeState>, b: seq<HikeState>)
    ensures Weight(a + b) == Weight(a) + Weight(b)
    decreases |a|
  {
    if a != [] {
      assert (a + b)[0] == a[0] && (a + b)[1..] == a[1..] + b;
      assert Weight(a + b) == Power5(Unvisited(a[0].visited)) + Weight(a[1..] + b);
      WeightAppend(a[1..], b);
    } else {
      assert a + b == b;
    }
  }

  /** States that all have `n` cells left to visit weigh `5^n` each. */
  lemma {:induction false} WeightAtMost(queue: seq<HikeState>, n: nat, k: nat)
    requires |queue| <= k && forall c :: c in queue ==> Unvisited(c.visited) == n
    ensures Weight(queue) <= k * Power5(n)
    decreases |queue|
  {
    var p := Power5(n);
    if queue == [] {
      MulNonnegative(k, p);
    } else {
      assert queue[0] in queue;
      WeightAtMost(queue[1..], n, k - 1);
      assert Weight(queue) == p + Weight(queue[1..]);
      assert (k - 1) * p + p == k * p;
    }
  }

  /** The states one step on weigh less than the state they came from. */
  lemma ReachableWeight(trails: seq<Trail>, s: HikeState)
    requires ValidMap(trails) && Placed(s)
    ensures Weight(ReachableStates(trails, s)) < Power5(Unvisited(s.visited))
  {
    var next := ReachableStates(trails, s);
    if next != [] {
      assert next[0] in next;
      var n := Unvisited(s.visited) - 1;
      WeightAtMost(next, n, 4);
    }
  }

  /** The hikes from a queue are those from its first state and those from the rest. */
  lemma PendingSplit(trails: seq<Trail>, queue: seq<HikeState>, more: seq<HikeState>)
    requires ValidMap(trails) && queue != []
    requires forall c :: c in queue ==> Placed(c)
    requires forall c :: c in more ==> Placed(c)
    ensures Pending(trails, queue) == Hikes(trails, queue[0]) + Pending(trails, queue[1..])
    ensures Pending(trails, queue[1..] + more) == Pending(trails, queue[1..]) + Pending(trails, more)
  {
    assert forall c :: c in queue <==> c == queue[0] || c in queue[1..];
    assert forall c :: c in queue[1..] + more <==> c in queue[1..] || c in more;
  }

  /** The step counts recorded so far. */
  ghost function Recorded(hikes: seq<nat>): set<nat>
  {
    set h | h in hikes
  }

  lemma RecordedAppend(hikes: seq<nat>, h: nat)
    ensures Recorded(hikes + [h]) == Recorded(hikes) + {h}
    ensures Recorded(hikes) == {} <==> hikes == []
  {
    if hikes != [] {
      assert hikes[0] in Recorded(hikes);
    }
  }

  /** Taking a state on the finish off the queue leaves its hike to be recorded. */
  lemma PopFinish(trails: seq<Trail>, queue: seq<HikeState>)
    requires ValidMap(trails) && queue != [] && forall c :: c in queue ==> Placed(c)
    requires Placed(queue[0]) && trails[queue[0].position] == Finish
    ensures Pending(trails, queue) == {queue[0].steps} + Pending(trails, queue[1..])
    ensures Weight(queue[1..]) < Weight(queue)
  {
    PendingSplit(trails, queue, []);
  }

  /** Replacing any other state at the head of the queue by the states one step on keeps the
      hikes still to come and lowers the weight. */
  lemma PopExpand(trails: seq<Trail>, queue: seq<HikeState>)
    requires ValidMap(trails) && queue != [] && forall c :: c in queue ==> Placed(c)
    requires Placed(queue[0]) && trails[queue[0].position] != Finish
    ensures var next := queue[1..] + ReachableStates(trails, queue[0]);
            && (forall c :: c in next ==> Placed(c))
            && Pending(trails, queue) == Pending(trails, next)
            && Weight(next) < Weight(queue)
  {
    var s := queue[0];
    assert s in queue;
    var more := ReachableStates(trails, s);
    assert forall c :: c in queue[1..] + more <==> c in queue[1..] || c in more;
    PendingSplit(trails, queue, more);
    assert Hikes(trails, s) == Pending(trails, more);
    ReachableWeight(trails, s);
    WeightAppend(queue[1..], more);
  }

  /** `TrailMap::longest_hike`: every hike in a queue, first in first out; a state on the
      finish records its steps, any other queues the states one step on; the answer is the
      largest recorded. */
  method LongestHike(trails: seq<Trail>) returns (r: Option<nat>)
    requires ValidMap(trails)
    ensures IsLongestHike(trails, r)
  {
    var hikes: seq<nat> := [];
    var initial := InitialPosition(trails);
    if initial.None? {
      return None;
    }
    var queue := [initial.value];
    ghost var all := Hikes(trails, initial.value);
    assert Pending(trails, queue) == all by {
      assert forall c :: c in queue <==> c == initial.value;
    }
    while queue != []
      invariant forall c :: c in queue ==> Placed(c)
      invariant Recorded(hikes) + Pending(trails, queue) == all
      decreases Weight(queue)
    {
      var state := queue[0];
      assert state in queue;
      if trails[state.position] == Finish {
        PopFinish(trails, queue);
        RecordedAppend(hikes, state.steps);
        hikes := hikes + [state.steps];
        queue := queue[1..];
      } else {
        PopExpand(trails, queue);
        queue := queue[1..] + ReachableStates(trails, state);
      }
    }
    assert Recorded(hikes) == all;
    RecordedAppend(hikes, 0);
    r := Max(hikes);
  }

  /** `part_one`: the longest hike on the map the text describes, or None when the text is
      not a map. */
  method PartOne(input: String) returns (r: Option<nat>)
    requires Fits(Lines(input), GRID_SIZE)
    ensures MapOf(input).Err? ==> r.None?
    ensures MapOf(input).Ok? ==> IsLongestHike(MapOf(input).value, r)
  {
    var parsed := FromStr(input);
    if parsed.Err? {
      return None;
    }
    r := LongestHike(parsed.value);
  }
}
