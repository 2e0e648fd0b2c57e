/** Day 8 (src/bin/08.rs): a network of nodes, each forking left and right, walked by
    following a list of directions cyclically. Part one counts the steps from `AAA` to
    `ZZZ`; part two finds, for every node ending in `A`, the cycle on which its walk meets
    a node ending in `Z`, and combines those cycles with the Chinese remainder theorem. */
module Day08 {
  import opened Wrappers
  import opened Text
  import opened Divisibility
  import opened Day08Congruences
  import opened Day08Primes

  datatype Direction = Left | Right

  /** A node of the map. A node whose both exits lead back to itself is a dead end. */
  datatype MapNode = Fork(left: String, right: String) | DeadEnd

  datatype Network = Network(directions: seq<Direction>, nodes: map<String, MapNode>)

  // ---------------------------------------------------------------------------------------
  // Walking the network

  /** The node at `position`; a node missing from the map is treated as a dead end. */
  function NodeAt(net: Network, position: String): MapNode
  {
    if position in net.nodes then net.nodes[position] else DeadEnd
  }

  /** Taking a fork with no directions divides by zero (`steps % 0`), so the walks may not
      leave such a fork. */
  predicate Panics(net: Network, position: String)
  {
    |net.directions| == 0 && NodeAt(net, position).Fork?
  }

  /** One move from `position` when `steps` moves have been made: the direction used is
      the one at `steps` modulo the number of directions. A dead end stops the walk. The
      case with no directions at a fork is the panic above; it gives `None` here but no
      walk reaches it. */
  function Move(net: Network, position: String, steps: nat): (r: Option<String>)
    ensures r.Some? <==> NodeAt(net, position).Fork? && |net.directions| > 0
    ensures r.Some? ==> r.value == NodeAt(net, position).left || r.value == NodeAt(net, position).right
  {
    match NodeAt(net, position)
    case DeadEnd => None
    case Fork(left, right) =>
      if |net.directions| == 0 then None
      else if net.directions[steps % |net.directions|] == Left then Some(left)
      else Some(right)
  }

  /** The position after `k` moves from `start`, or `None` once the walk has stopped at a
      dead end. */
  function Walk(net: Network, start: String, k: nat): Option<String>
  {
    if k == 0 then Some(start)
    else match Walk(net, start, k - 1)
      case None => None
      case Some(position) => Move(net, position, k - 1)
  }

  /** The next position of a walk is one move from its current one. */
  lemma WalkNext(net: Network, start: String, n: nat, position: String)
    requires Walk(net, start, n) == Some(position)
    ensures Walk(net, start, n + 1) == Move(net, position, n)
  {
  }

  /** A walk that has stopped stays stopped. */
  lemma {:induction false} WalkStaysStopped(net: Network, start: String, j: nat, k: nat)
    requires j <= k && Walk(net, start, j).None?
    ensures Walk(net, start, k).None?
    decreases k - j
  {
    if j < k {
      WalkStaysStopped(net, start, j + 1, k);
    }
  }

  /** When the walk stands on the same node at move counts `a < b` and `b - a` is a whole
      number of passes through the directions, it repeats itself from there on. */
  lemma {:induction false} WalkRepeats(net: Network, start: String, a: nat, b: nat, j: nat)
    requires a < b && Walk(net, start, a).Some? && Walk(net, start, a) == Walk(net, start, b)
    requires |net.directions| > 0 && (b - a) % |net.directions| == 0
    ensures Walk(net, start, a + j) == Walk(net, start, b + j)
    decreases j
  {
    if j > 0 {
      WalkRepeats(net, start, a, b, j - 1);
      var len := |net.directions|;
      DivMod(b - a, len);
      ShiftRemainder(a + j - 1, len, (b - a) / len);
      assert (b + j - 1) % len == (a + j - 1) % len;
    }
  }

  /** Such a walk returns to the node at `a` after every further `b - a` moves. */
  lemma {:induction false} WalkCycles(net: Network, start: String, a: nat, b: nat, n: nat)
    requires a < b && Walk(net, start, a).Some? && Walk(net, start, a) == Walk(net, start, b)
    requires |net.directions| > 0 && (b - a) % |net.directions| == 0
    ensures Walk(net, start, a + n * (b - a)) == Walk(net, start, a)
    decreases n
  {
    if n > 0 {
      var d := b - a;
      WalkCycles(net, start, a, b, n - 1);
      WalkRepeats(net, start, a, b, (n - 1) * d);
      assert a + n * d == b + (n - 1) * d;
    }
  }

  // ---------------------------------------------------------------------------------------
  // steps_to_reach

  /** The walk from `start` is still going and has not stood on `target` in its first `n`
      positions (after 0 to `n - 1` moves). */
  predicate Avoids(net: Network, start: String, target: String, n: nat)
  {
    forall j :: 0 <= j < n ==> Walk(net, start, j).Some? && Walk(net, start, j) != Some(target)
  }

  /** The walk avoids `target` until it stops at a dead end after `k` moves. */
  predicate StopsAfter(net: Network, start: String, target: String, k: nat)
  {
    Avoids(net, start, target, k + 1) && Walk(net, start, k + 1).None?
  }

  /** What `steps_to_reach(start, target)` returns, or that `fuel` moves did not settle it:
      the number of moves to the first visit of `target`; `None` when the walk stops at a
      dead end before reaching it; `OutOfFuel` when `fuel` moves pass without either. */
  ghost predicate ReachOutcome(net: Network, start: String, target: String, fuel: nat, r: Fuelled<Option<nat>>)
  {
    if r.OutOfFuel? then
      Avoids(net, start, target, fuel + 1)
    else if r.value.Some? then
      r.value.value <= fuel && Avoids(net, start, target, r.value.value) &&
      Walk(net, start, r.value.value) == Some(target)
    else
      exists k: nat :: k < fuel && StopsAfter(net, start, target, k)
  }

  /** The outcome is determined by the walk. */
  lemma ReachOutcomeUnique(net: Network, start: String, target: String, fuel: nat,
                           r1: Fuelled<Option<nat>>, r2: Fuelled<Option<nat>>)
    requires ReachOutcome(net, start, target, fuel, r1) && ReachOutcome(net, start, target, fuel, r2)
    ensures r1 == r2
  {
    if r1 == Finished(None) || r2 == Finished(None) {
      var k: nat :| k < fuel && StopsAfter(net, start, target, k);
      assert Walk(net, start, k + 1).None?;
    }
  }

  /** `steps_to_reach`: walks from `start` until it stands on `target`, at most `fuel`
      moves. Leaving a fork with no directions panics. */
  method StepsToReach(net: Network, start: String, target: String, fuel: nat) returns (r: Fuelled<Option<nat>>)
    requires start == target || !Panics(net, start)
    ensures ReachOutcome(net, start, target, fuel, r)
  {
    var position := start;
    var steps: nat := 0;
    while position != target
      invariant steps <= fuel
      invariant Walk(net, start, steps) == Some(position)
      invariant Avoids(net, start, target, steps)
      invariant steps > 0 ==> |net.directions| > 0
      decreases fuel - steps
    {
      if steps == fuel {
        return OutOfFuel;
      }
      WalkNext(net, start, steps, position);
      match Move(net, position, steps)
      case None =>
        assert StopsAfter(net, start, target, steps);
        return Finished(None);
      case Some(next) =>
        position := next;
        steps := steps + 1;
    }
    return Finished(Some(steps));
  }

  // ---------------------------------------------------------------------------------------
  // find_a_to_z_loop

  predicate EndsWith(s: String, c: char)
  {
    |s| > 0 && s[|s| - 1] == c
  }

  /** After `j` moves the walk stands on a node ending in `Z`. */
  predicate AtZ(net: Network, start: String, j: nat)
  {
    Walk(net, start, j).Some? && EndsWith(Walk(net, start, j).value, 'Z')
  }

  /** The move counts, from 1 to `n`, after which the walk stands on a node ending in `Z`,
      in increasing order. */
  function ZVisits(net: Network, start: String, n: nat): seq<nat>
  {
    if n == 0 then [] else ZVisits(net, start, n - 1) + (if AtZ(net, start, n) then [n] else [])
  }

  /** `ZVisits` lists exactly the move counts up to `n` that land on a `Z` node, in
      increasing order. */
  lemma {:induction false} ZVisitsSpec(net: Network, start: String, n: nat)
    ensures forall j: nat :: j in ZVisits(net, start, n) <==> 1 <= j <= n && AtZ(net, start, j)
    ensures forall a, b :: 0 <= a < b < |ZVisits(net, start, n)| ==>
      ZVisits(net, start, n)[a] < ZVisits(net, start, n)[b]
  {
    if n > 0 {
      ZVisitsSpec(net, start, n - 1);
      var earlier := ZVisits(net, start, n - 1);
      var visits := ZVisits(net, start, n);
      assert visits == earlier + (if AtZ(net, start, n) then [n] else []);
      assert forall j: nat :: j in visits <==> j in earlier || (j == n && AtZ(net, start, n));
      assert forall a :: 0 <= a < |earlier| ==> earlier[a] in earlier;
    }
  }

  /** Visits found by `n` moves are the first ones found by `m >= n` moves. */
  lemma {:induction false} ZVisitsPrefix(net: Network, start: String, n: nat, m: nat)
    requires n <= m
    ensures ZVisits(net, start, n) <= ZVisits(net, start, m)
    decreases m - n
  {
    if n < m {
      ZVisitsPrefix(net, start, n, m - 1);
    }
  }

  /** The loop closes after `b` moves: exactly two visits to `Z` nodes by then, the second
      after move `b`, both on the same node; `c` is the congruence built from them. */
  predicate ClosesAt(net: Network, start: String, b: nat, c: Congruence)
  {
    var visits := ZVisits(net, start, b);
    && |visits| == 2 && visits[0] < visits[1] == b
    && Walk(net, start, visits[0]) == Walk(net, start, b)
    && c == Congruence(visits[0] % (b - visits[0]), b - visits[0])
  }

  /** The walk gives up after move `k + 1`: it stops at a dead end before a second visit to
      a `Z` node, or that second visit is to a different `Z` node than the first. */
  predicate GivesUpAfter(net: Network, start: String, k: nat)
  {
    var visits := ZVisits(net, start, k);
    && Walk(net, start, k).Some? && |visits| <= 1
    && (|| Walk(net, start, k + 1).None?
        || (|visits| == 1 && AtZ(net, start, k + 1) && Walk(net, start, visits[0]) != Walk(net, start, k + 1)))
  }

  /** What `find_a_to_z_loop(start)` returns, or that `fuel` moves did not settle it. */
  ghost predicate LoopOutcome(net: Network, start: String, fuel: nat, r: Fuelled<Option<Congruence>>)
  {
    if r.OutOfFuel? then
      Walk(net, start, fuel).Some? && |ZVisits(net, start, fuel)| <= 1
    else if r.value.Some? then
      exists b: nat :: b <= fuel && ClosesAt(net, start, b, r.value.value)
    else
      exists k: nat :: k < fuel && GivesUpAfter(net, start, k)
  }

  /** One more move adds its count to the visits when it lands on a `Z` node. */
  lemma ZVisitsNext(net: Network, start: String, n: nat, position: String)
    requires Walk(net, start, n + 1) == Some(position)
    ensures ZVisits(net, start, n + 1) ==
      ZVisits(net, start, n) + (if EndsWith(position, 'Z') then [n + 1] else [])
  {
  }

  /** The second visit to the same `Z` node closes the loop. */
  lemma CloseLoop(net: Network, start: String, initial: nat, steps: nat)
    requires ZVisits(net, start, steps + 1) == [initial + 1, steps + 1]
    requires Walk(net, start, initial + 1) == Walk(net, start, steps + 1)
    ensures steps > initial
    ensures ClosesAt(net, start, steps + 1, Congruence((initial + 1) % (steps - initial), steps - initial))
  {
    ZVisitsSpec(net, start, steps + 1);
    assert ZVisits(net, start, steps + 1)[0] < ZVisits(net, start, steps + 1)[1];
  }

  /** Giving up after move `k + 1` within the budget is the outcome `None`. */
  lemma GiveUpOutcome(net: Network, start: String, fuel: nat, k: nat)
    requires k < fuel && GivesUpAfter(net, start, k)
    ensures LoopOutcome(net, start, fuel, Finished(None))
  {
  }

  /** `find_a_to_z_loop`: walks from `start`, remembering the first node ending in `Z` and
      the step at which it was reached, until it reaches such a node again; at most `fuel`
      moves. The congruence says the walk meets the `Z` node after `value` moves modulo
      `modulo`; see `LoopRepeats` for when that holds. */
  method FindAToZLoop(net: Network, start: String, fuel: nat) returns (r: Fuelled<Option<Congruence>>)
    requires !Panics(net, start)
    ensures LoopOutcome(net, start, fuel, r)
  {
    var position := start;
    var steps: nat := 0;
    var z: Option<String> := None;
    var initial: nat := 0;
    var cycle: Option<nat> := None;
    while cycle.None?
      invariant steps <= fuel
      invariant Walk(net, start, steps) == Some(position)
      invariant steps > 0 ==> |net.directions| > 0
      invariant cycle.None? && z.None? ==> ZVisits(net, start, steps) == []
      invariant cycle.None? && z.Some? ==>
        initial < steps && ZVisits(net, start, steps) == [initial + 1] && Walk(net, start, initial + 1) == z
      invariant cycle.Some? ==> steps > 0 && cycle.value == steps - 1 - initial
      invariant cycle.Some? ==>
        ZVisits(net, start, steps) == [initial + 1, steps] && Walk(net, start, initial + 1) == Walk(net, start, steps)
      decreases fuel - steps
    {
      if steps == fuel {
        return OutOfFuel;
      }
      WalkNext(net, start, steps, position);
      match Move(net, position, steps)
      case None =>
        GiveUpOutcome(net, start, fuel, steps);
        return Finished(None);
      case Some(next) =>
        position := next;
      ZVisitsNext(net, start, steps, position);
      if EndsWith(position, 'Z') {
        match z
        case Some(previous) =>
          if position != previous {
            GiveUpOutcome(net, start, fuel, steps);
            return Finished(None);
          }
          cycle := Some(steps - initial);
        case None =>
          z := Some(position);
          initial := steps;
      }
      steps := steps + 1;
    }
    CloseLoop(net, start, initial, steps - 1);
    assert ClosesAt(net, start, steps, Congruence((initial + 1) % cycle.value, cycle.value));
    return Finished(Some(Congruence((initial + 1) % cycle.value, cycle.value)));
  }

  /** The outcome is determined by the walk. */
  lemma LoopOutcomeUnique(net: Network, start: String, fuel: nat,
                          r1: Fuelled<Option<Congruence>>, r2: Fuelled<Option<Congruence>>)
    requires LoopOutcome(net, start, fuel, r1) && LoopOutcome(net, start, fuel, r2)
    ensures r1 == r2
  {
    if r1 != r2 {
      if r1 == Finished(None) {
        LoopOutcomesExclusive(net, start, fuel, r1, r2);
      } else if r2 == Finished(None) {
        LoopOutcomesExclusive(net, start, fuel, r2, r1);
      } else if r1.OutOfFuel? || r2.OutOfFuel? {
        var c := if r1.OutOfFuel? then r2.value.value else r1.value.value;
        var b: nat :| b <= fuel && ClosesAt(net, start, b, c);
        ZVisitsPrefix(net, start, b, fuel);
      } else {
        var b1: nat :| b1 <= fuel && ClosesAt(net, start, b1, r1.value.value);
        var b2: nat :| b2 <= fuel && ClosesAt(net, start, b2, r2.value.value);
        ClosingUnique(net, start, b1, b2, r1.value.value, r2.value.value);
      }
    }
  }

  lemma ClosingUnique(net: Network, start: String, b1: nat, b2: nat, c1: Congruence, c2: Congruence)
    requires ClosesAt(net, start, b1, c1) && ClosesAt(net, start, b2, c2)
    ensures b1 == b2 && c1 == c2
  {
    if b1 <= b2 {
      ZVisitsPrefix(net, start, b1, b2);
    } else {
      ZVisitsPrefix(net, start, b2, b1);
    }
  }

  /** Giving up excludes every other outcome. */
  lemma LoopOutcomesExclusive(net: Network, start: String, fuel: nat,
                              r1: Fuelled<Option<Congruence>>, r2: Fuelled<Option<Congruence>>)
    requires LoopOutcome(net, start, fuel, r1) && LoopOutcome(net, start, fuel, r2)
    requires r1 == Finished(None)
    ensures r2 == Finished(None)
  {
    var k: nat :| k < fuel && GivesUpAfter(net, start, k);
    if r2.OutOfFuel? {
      GiveUpExcludes(net, start, k, fuel);
    } else if r2.value.Some? {
      var b: nat :| b <= fuel && ClosesAt(net, start, b, r2.value.value);
      if b <= k {
        ZVisitsPrefix(net, start, b, k);
      } else {
        ZVisitsSpec(net, start, b);
        GiveUpExcludes(net, start, k, b);
      }
    }
  }

  /** A walk that gives up after move `k + 1` but is still going after move `n > k` has
      by then visited two different `Z` nodes, the second after move `k + 1`. */
  lemma GiveUpExcludes(net: Network, start: String, k: nat, n: nat)
    requires GivesUpAfter(net, start, k) && k < n && Walk(net, start, n).Some?
    ensures var visits := ZVisits(net, start, n);
      |visits| >= 2 && visits[1] == k + 1 && Walk(net, start, visits[0]) != Walk(net, start, visits[1])
  {
    if Walk(net, start, k + 1).None? {
      WalkStaysStopped(net, start, k + 1, n);
    } else {
      assert ZVisits(net, start, k + 1) == ZVisits(net, start, k) + [k + 1];
      ZVisitsPrefix(net, start, k + 1, n);
    }
  }

  /** What the congruence means. When the cycle is a whole number of passes through the
      directions, the walk is back on the first `Z` node after every move count that is
      congruent to `value` modulo `modulo`, from the first visit on. The source does not
      check that the cycle is such a multiple. */
  lemma LoopRepeats(net: Network, start: String, b: nat, c: Congruence, n: nat)
    requires ClosesAt(net, start, b, c)
    requires |net.directions| > 0 && c.modulo % |net.directions| == 0
    ensures var t := ZVisits(net, start, b)[0] + n * c.modulo;
      AtZ(net, start, t) && Walk(net, start, t) == Walk(net, start, ZVisits(net, start, b)[0]) &&
      t % c.modulo == c.value
  {
    var a := ZVisits(net, start, b)[0];
    ZVisitsSpec(net, start, b);
    assert a in ZVisits(net, start, b);
    WalkCycles(net, start, a, b, n);
    MulCommutes(n, c.modulo);
    ShiftRemainder(a, c.modulo, n);
  }

  // ---------------------------------------------------------------------------------------
  // find_a_to_z_loops

  /** `starts` lists the keys ending in `A`, each once. */
  ghost predicate ListsStarts(net: Network, starts: seq<String>)
  {
    && (forall s :: s in starts <==> s in net.nodes && EndsWith(s, 'A'))
    && (forall a, b :: 0 <= a < b < |starts| ==> starts[a] != starts[b])
  }

  /** `filter_map` keeping the present values, in order. */
  function Present(xs: seq<Option<Congruence>>): (r: seq<Congruence>)
    ensures forall y :: y in r <==> Some(y) in xs
  {
    if xs == [] then []
    else
      var r := Present(xs[..|xs| - 1]) + (if xs[|xs| - 1].Some? then [xs[|xs| - 1].value] else []);
      assert xs == xs[..|xs| - 1] + [xs[|xs| - 1]];
      r
  }

  /** The loops found: one outcome per key ending in `A`, and the congruences present. */
  ghost predicate LoopsFound(net: Network, fuel: nat, starts: seq<String>, outcomes: seq<Option<Congruence>>,
                             loops: seq<Congruence>)
  {
    && ListsStarts(net, starts) && |outcomes| == |starts|
    && (forall k :: 0 <= k < |starts| ==> LoopOutcome(net, starts[k], fuel, Finished(outcomes[k])))
    && loops == Present(outcomes)
  }

  /** Every loop found has a positive modulus. */
  lemma LoopsPositive(net: Network, fuel: nat, starts: seq<String>, outcomes: seq<Option<Congruence>>,
                      loops: seq<Congruence>)
    requires LoopsFound(net, fuel, starts, outcomes, loops)
    ensures PositiveModuli(loops)
  {
    forall i | 0 <= i < |loops| ensures loops[i].modulo > 0 {
      assert loops[i] in loops;
      var k :| 0 <= k < |outcomes| && outcomes[k] == Some(loops[i]);
      assert LoopOutcome(net, starts[k], fuel, Finished(outcomes[k]));
    }
  }

  /** `find_a_to_z_loops`: the loop of every key ending in `A`, in the map's iteration
      order (left open), keeping the ones found. The first walk that runs out of fuel ends
      the search. */
  /** The loop of `find_a_to_z_loops` after every node outside `rest` has been looked at. */
  ghost predicate Scanned(net: Network, fuel: nat, rest: set<String>, starts: seq<String>,
                          outcomes: seq<Option<Congruence>>)
  {
    && rest <= net.nodes.Keys
    && (forall s :: s in starts <==> s in net.nodes && EndsWith(s, 'A') && s !in rest)
    && (forall a, b :: 0 <= a < b < |starts| ==> starts[a] != starts[b])
    && |outcomes| == |starts|
    && (forall k :: 0 <= k < |starts| ==> LoopOutcome(net, starts[k], fuel, Finished(outcomes[k])))
  }

  lemma ScanStart(net: Network, fuel: nat, rest: set<String>, starts: seq<String>,
                  outcomes: seq<Option<Congruence>>, key: String, outcome: Option<Congruence>)
    requires Scanned(net, fuel, rest, starts, outcomes) && key in rest && EndsWith(key, 'A')
    requires LoopOutcome(net, key, fuel, Finished(outcome))
    ensures Scanned(net, fuel, rest - {key}, starts + [key], outcomes + [outcome])
  {
    var starts', outcomes' := starts + [key], outcomes + [outcome];
    forall k | 0 <= k < |starts'|
      ensures LoopOutcome(net, starts'[k], fuel, Finished(outcomes'[k]))
    {
      if k < |starts| {
        assert starts'[k] == starts[k] && outcomes'[k] == outcomes[k];
      }
    }
  }

  lemma ScanOther(net: Network, fuel: nat, rest: set<String>, starts: seq<String>,
                  outcomes: seq<Option<Congruence>>, key: String)
    requires Scanned(net, fuel, rest, starts, outcomes) && key in rest && !EndsWith(key, 'A')
    ensures Scanned(net, fuel, rest - {key}, starts, outcomes)
  {
  }

  lemma ScanDone(net: Network, fuel: nat, starts: seq<String>, outcomes: seq<Option<Congruence>>)
    requires Scanned(net, fuel, {}, starts, outcomes)
    ensures ListsStarts(net, starts) && |outcomes| == |starts|
    ensures forall k :: 0 <= k < |starts| ==> LoopOutcome(net, starts[k], fuel, Finished(outcomes[k]))
  {
  }

  method FindAToZLoops(net: Network, fuel: nat)
    returns (r: Fuelled<seq<Congruence>>, ghost starts: seq<String>, ghost outcomes: seq<Option<Congruence>>)
    requires forall key :: key in net.nodes && EndsWith(key, 'A') ==> !Panics(net, key)
    ensures r.Finished? ==> LoopsFound(net, fuel, starts, outcomes, r.value)
    ensures r.OutOfFuel? ==>
      exists s :: s in net.nodes && EndsWith(s, 'A') && LoopOutcome(net, s, fuel, OutOfFuel)
  {
    var rest := net.nodes.Keys;
    var loops: seq<Congruence> := [];
    starts, outcomes := [], [];
    while rest != {}
      invariant Scanned(net, fuel, rest, starts, outcomes)
      invariant loops == Present(outcomes)
      decreases |rest|
    {
      var key :| key in rest;
      if EndsWith(key, 'A') {
        var found := FindAToZLoop(net, key, fuel);
        if found.OutOfFuel? {
          return OutOfFuel, starts, outcomes;
        }
        PresentAppend(outcomes, found.value);
        if found.value.Some? {
          loops := loops + [found.value.value];
        }
        ScanStart(net, fuel, rest, starts, outcomes, key, found.value);
        starts, outcomes := starts + [key], outcomes + [found.value];
      } else {
        ScanOther(net, fuel, rest, starts, outcomes, key);
      }
      rest := rest - {key};
    }
    ScanDone(net, fuel, starts, outcomes);
    return Finished(loops), starts, outcomes;
  }

  lemma PresentAppend(xs: seq<Option<Congruence>>, x: Option<Congruence>)
    ensures Present(xs + [x]) == Present(xs) + (if x.Some? then [x.value] else [])
  {
    assert (xs + [x])[..|xs|] == xs;
  }

  // ---------------------------------------------------------------------------------------
  // Parsing

  function DirectionChar(d: Direction): char
  {
    if d == Left then 'L' else 'R'
  }

  /** `Direction::try_from(char)`. */
  function ParseDirection(ch: char): (r: Result<Direction>)
    ensures r.Ok? <==> ch == 'L' || ch == 'R'
    ensures r.Ok? ==> DirectionChar(r.value) == ch
  {
    if ch == 'L' then Ok(Left) else if ch == 'R' then Ok(Right) else Err
  }

  /** The directions text, one direction per character; any other character fails. */
  function ParseDirections(text: String): (r: Result<seq<Direction>>)
    ensures r.Ok? <==> forall i :: 0 <= i < |text| ==> text[i] == 'L' || text[i] == 'R'
    ensures r.Ok? ==> |r.value| == |text| && forall i :: 0 <= i < |text| ==> DirectionChar(r.value[i]) == text[i]
  {
    if text == [] then Ok([])
    else
      var rest := ParseDirections(text[1..]);
      assert forall i :: 1 <= i < |text| ==> text[1..][i - 1] == text[i];
      match (ParseDirection(text[0]), rest)
      case (Ok(d), Ok(ds)) => Ok([d] + ds)
      case _ => Err
  }

  function DirectionsText(ds: seq<Direction>): (text: String)
    ensures |text| == |ds| && forall i :: 0 <= i < |ds| ==> text[i] == DirectionChar(ds[i])
  {
    seq(|ds|, i requires 0 <= i < |ds| => DirectionChar(ds[i]))
  }

  /** Directions written out and parsed again come back unchanged. */
  lemma DirectionsRoundTrip(ds: seq<Direction>)
    ensures ParseDirections(DirectionsText(ds)) == Ok(ds)
  {
    var text := DirectionsText(ds);
    assert forall i :: 0 <= i < |text| ==> text[i] == DirectionChar(ds[i]);
    var r := ParseDirections(text);
    assert r.Ok?;
    assert |r.value| == |ds|;
    assert forall i :: 0 <= i < |ds| ==> r.value[i] == ds[i];
    assert r.value == ds;
  }

  /** A node line: `key = (left, right)`. */
  function NodeLine(key: String, left: String, right: String): String
  {
    key + " = " + ("(" + left + ", " + (right + ")"))
  }

  /** One node line. A line whose key and both exits agree is a dead end. */
  function ParseNode(line: String): (r: Result<(String, MapNode)>)
    ensures r.Ok? ==> match r.value.1
      case DeadEnd => line == NodeLine(r.value.0, r.value.0, r.value.0)
      case Fork(left, right) => line == NodeLine(r.value.0, left, right) && !(left == right == r.value.0)
  {
    match SplitOnce(line, " = ")
    case None => Err
    case Some((key, description)) =>
      match SplitOnce(description, ", ")
      case None => Err
      case Some((leftText, rightText)) =>
        match (StripPrefix(leftText, "("), StripSuffix(rightText, ")"))
        case (Some(left), Some(right)) =>
          assert "(" + left + ", " + (right + ")") == description;
          Ok((key, if key == left && left == right then DeadEnd else Fork(left, right)))
        case _ => Err
  }

  /** A node line written out and parsed again gives the node back: a dead end exactly when
      the key and both exits agree. */
  lemma NodeRoundTrip(key: String, left: String, right: String)
    requires ' ' !in key && ',' !in left
    ensures ParseNode(NodeLine(key, left, right)) ==
      Ok((key, if key == left && left == right then DeadEnd else Fork(left, right)))
  {
    var description := "(" + left + ", " + (right + ")");
    FindAfter(key, " = ", description);
    assert ',' !in "(" + left;
    FindAfter("(" + left, ", ", right + ")");
    assert ("(" + left)[..1] == "(" && ("(" + left)[1..] == left;
    assert (right + ")")[..|right|] == right && (right + ")")[|right|..] == ")";
  }

  /** The parsed node lines inserted into the map in turn: a later line for the same key
      replaces the earlier one. */
  function MapOf(entries: seq<(String, MapNode)>): map<String, MapNode>
  {
    if entries == [] then map[]
    else MapOf(entries[..|entries| - 1])[entries[|entries| - 1].0 := entries[|entries| - 1].1]
  }

  /** No entry after entry `i` is for `key`. */
  predicate LastFor(entries: seq<(String, MapNode)>, i: nat, key: String)
  {
    forall j :: i < j < |entries| ==> entries[j].0 != key
  }

  /** The map holds exactly the keys of the entries. */
  lemma {:induction false} MapOfKeys(entries: seq<(String, MapNode)>)
    ensures forall key :: key in MapOf(entries) <==> exists i :: 0 <= i < |entries| && entries[i].0 == key
    decreases |entries|
  {
    if entries != [] {
      var init, n := entries[..|entries| - 1], |entries| - 1;
      MapOfKeys(init);
      forall key | key in MapOf(entries)
        ensures exists i :: 0 <= i < |entries| && entries[i].0 == key
      {
        if key != entries[n].0 {
          assert key in MapOf(init);
          var i :| 0 <= i < |init| && init[i].0 == key;
          assert entries[i].0 == key;
        }
      }
      forall key | exists i :: 0 <= i < |entries| && entries[i].0 == key
        ensures key in MapOf(entries)
      {
        var i :| 0 <= i < |entries| && entries[i].0 == key;
        if i < n {
          assert init[i].0 == key;
        }
      }
    }
  }

  /** Each key holds the node of its last entry. */
  lemma {:induction false} MapOfLastWins(entries: seq<(String, MapNode)>, i: nat)
    requires i < |entries| && LastFor(entries, i, entries[i].0)
    ensures entries[i].0 in MapOf(entries) && MapOf(entries)[entries[i].0] == entries[i].1
    decreases |entries|
  {
    var init, n := entries[..|entries| - 1], |entries| - 1;
    if i < n {
      assert init[i] == entries[i];
      assert LastFor(init, i, init[i].0);
      MapOfLastWins(init, i);
    }
  }

  /** `Network::try_from`: the directions, a blank line, then the node lines; the first line
      that does not parse fails the whole. */
  function ParseNetwork(input: String): (r: Result<Network>)
    ensures r.Ok? <==>
      && SplitOnce(input, "\n\n").Some?
      && ParseDirections(SplitOnce(input, "\n\n").value.0).Ok?
      && ParseEach(ParseNode, Lines(SplitOnce(input, "\n\n").value.1)).Ok?
  {
    match SplitOnce(input, "\n\n")
    case None => Err
    case Some((directionsText, mapText)) =>
      match (ParseDirections(directionsText), ParseEach(ParseNode, Lines(mapText)))
      case (Ok(directions), Ok(entries)) => Ok(Network(directions, MapOf(entries)))
      case _ => Err
  }

  /** The parsed network's map holds the node of the last line for each key. */
  lemma ParsedNodes(input: String, i: nat)
    requires ParseNetwork(input).Ok?
    requires var entries := ParseEach(ParseNode, Lines(SplitOnce(input, "\n\n").value.1)).value;
      i < |entries| && LastFor(entries, i, entries[i].0)
    ensures var lines := Lines(SplitOnce(input, "\n\n").value.1);
      var entry := ParseEach(ParseNode, lines).value[i];
      ParseNode(lines[i]) == Ok(entry) && NodeAt(ParseNetwork(input).value, entry.0) == entry.1
  {
    var lines := Lines(SplitOnce(input, "\n\n").value.1);
    ParseEachEntry(ParseNode, lines, i);
    MapOfLastWins(ParseEach(ParseNode, lines).value, i);
  }

  // ---------------------------------------------------------------------------------------
  // Parts one and two

  /** `part_one`: the steps from `AAA` to `ZZZ`, or `None` when the input does not parse or
      the walk stops at a dead end first. */
  method PartOne(input: String, fuel: nat) returns (r: Fuelled<Option<nat>>)
    requires ParseNetwork(input).Ok? ==> !Panics(ParseNetwork(input).value, "AAA")
    ensures ParseNetwork(input).Err? ==> r == Finished(None)
    ensures ParseNetwork(input).Ok? ==> ReachOutcome(ParseNetwork(input).value, "AAA", "ZZZ", fuel, r)
  {
    match ParseNetwork(input)
    case Err => r := Finished(None);
    case Ok(network) => r := StepsToReach(network, "AAA", "ZZZ", fuel);
  }

  /** Leaving no fork of a key ending in `A` needs a direction. */
  predicate StartsSafe(net: Network)
  {
    forall key :: key in net.nodes && EndsWith(key, 'A') ==> !Panics(net, key)
  }

  /** `part_two`: the loops of the keys ending in `A`, made pairwise coprime, combined by
      the Chinese remainder theorem (as corrected: a sum that is a multiple of the product
      gives the product). The answer solves every converted congruence when their product
      fits in an `isize`. */
  method PartTwo(input: String, fuel: nat) returns (r: Fuelled<Option<nat>>, ghost loops: seq<Congruence>,
                                                  ghost coprime: seq<Congruence>)
    requires ParseNetwork(input).Ok? ==> StartsSafe(ParseNetwork(input).value)
    ensures ParseNetwork(input).Err? ==> r == Finished(None)
    ensures r.OutOfFuel? ==> var net := ParseNetwork(input).value;
      exists s :: s in net.nodes && EndsWith(s, 'A') && LoopOutcome(net, s, fuel, OutOfFuel)
    ensures ParseNetwork(input).Ok? && r.Finished? ==>
      && (exists starts, outcomes :: LoopsFound(ParseNetwork(input).value, fuel, starts, outcomes, loops))
      && PositiveModuli(loops)
      && (exists keys :: ListsValues(coprime, keys, BestByPrime(AllFactors(loops, CoprimeSieve(loops)))))
      && PositiveModuli(coprime) && PairwiseCoprime(coprime)
      && r.value == Some(ChineseRemainder(coprime))
      && (Product(coprime) < ISIZE_LIMIT ==> forall i :: 0 <= i < |coprime| ==>
            r.value.value % coprime[i].modulo == coprime[i].value % coprime[i].modulo)
  {
    loops, coprime := [], [];
    match ParseNetwork(input)
    case Err => r := Finished(None);
    case Ok(network) =>
      var found, starts, outcomes := FindAToZLoops(network, fuel);
      if found.OutOfFuel? {
        return OutOfFuel, loops, coprime;
      }
      var cycles := found.value;
      LoopsPositive(network, fuel, starts, outcomes, cycles);
      var converted, keys := ConvertToCoprime(cycles);
      ConvertedCoprime(cycles, converted, keys);
      if Product(converted) < ISIZE_LIMIT {
        CrtSolves(converted);
      }
      loops, coprime := cycles, converted;
      r := Finished(Some(ChineseRemainder(converted)));
  }
}

/** The example network from the tests of src/bin/08.rs. */
module Day08Examples {
  import opened Wrappers
  import opened Text
  import opened Day08Congruences
  import opened Divisibility
  import opened Day08Primes
  import opened Day08

  const EXAMPLE := Network([Left, Right], map[
    "AAA" := Fork("BBB", "OOB"), "OOB" := DeadEnd, "BBB" := Fork("OOB", "CCC"),
    "CCC" := Fork("ZZZ", "OOB"), "ZZZ" := Fork("OOB", "CCC"), "GOA" := Fork("DDD", "OOB"),
    "DDD" := Fork("FFF", "EEE"), "EEE" := Fork("FEZ", "OOB"), "FFF" := Fork("OOB", "FEZ"),
    "FEZ" := Fork("DDD", "DDD")])

  /** From `AAA` the walk reaches `ZZZ` after three moves. */
  lemma ExampleStepsToReach(fuel: nat, r: Fuelled<Option<nat>>)
    requires fuel >= 3 && ReachOutcome(EXAMPLE, "AAA", "ZZZ", fuel, r)
    ensures r == Finished(Some(3))
  {
    assert Walk(EXAMPLE, "AAA", 1) == Some("BBB");
    assert Walk(EXAMPLE, "AAA", 2) == Some("CCC");
    assert Walk(EXAMPLE, "AAA", 3) == Some("ZZZ");
    ReachOutcomeUnique(EXAMPLE, "AAA", "ZZZ", fuel, r, Finished(Some(3)));
  }

  /** From `AAA` the walk meets `ZZZ` after moves 3 and 5: 1 modulo 2. */
  lemma ExampleLoopFromAAA(fuel: nat, r: Fuelled<Option<Congruence>>)
    requires fuel >= 5 && LoopOutcome(EXAMPLE, "AAA", fuel, r)
    ensures r == Finished(Some(Congruence(1, 2)))
  {
    assert Walk(EXAMPLE, "AAA", 1) == Some("BBB");
    assert Walk(EXAMPLE, "AAA", 2) == Some("CCC");
    assert Walk(EXAMPLE, "AAA", 3) == Some("ZZZ");
    assert Walk(EXAMPLE, "AAA", 4) == Some("CCC");
    assert Walk(EXAMPLE, "AAA", 5) == Some("ZZZ");
    assert ZVisits(EXAMPLE, "AAA", 5) == [3, 5];
    assert ClosesAt(EXAMPLE, "AAA", 5, Congruence(1, 2));
    LoopOutcomeUnique(EXAMPLE, "AAA", fuel, r, Finished(Some(Congruence(1, 2))));
  }

  /** From `GOA` the walk meets `FEZ` after moves 3 and 6: 0 modulo 3. */
  lemma ExampleLoopFromGOA(fuel: nat, r: Fuelled<Option<Congruence>>)
    requires fuel >= 6 && LoopOutcome(EXAMPLE, "GOA", fuel, r)
    ensures r == Finished(Some(Congruence(0, 3)))
  {
    assert Walk(EXAMPLE, "GOA", 1) == Some("DDD");
    assert Walk(EXAMPLE, "GOA", 2) == Some("EEE");
    assert Walk(EXAMPLE, "GOA", 3) == Some("FEZ");
    assert Walk(EXAMPLE, "GOA", 4) == Some("DDD");
    assert Walk(EXAMPLE, "GOA", 5) == Some("FFF");
    assert Walk(EXAMPLE, "GOA", 6) == Some("FEZ");
    assert ZVisits(EXAMPLE, "GOA", 6) == [3, 6];
    assert ClosesAt(EXAMPLE, "GOA", 6, Congruence(0, 3));
    LoopOutcomeUnique(EXAMPLE, "GOA", fuel, r, Finished(Some(Congruence(0, 3))));
  }

  /** Names the first three elements of a list that has them. */
  lemma FirstThree<T>(xs: seq<T>)
    ensures |xs| > 2 ==> xs[..3] == [xs[0], xs[1], xs[2]]
  {
  }

  /** A list without repeats that holds `a` and `b` and nothing else is one of their two
      orders. */
  lemma TwoDistinct<T>(xs: seq<T>, a: T, b: T)
    requires a != b && a in xs && b in xs
    requires forall i :: 0 <= i < |xs| ==> xs[i] == a || xs[i] == b
    requires forall i, j :: 0 <= i < j < |xs| ==> xs[i] != xs[j]
    ensures xs == [a, b] || xs == [b, a]
  {
    FirstThree(xs);
    assert |xs| == 2;
    if xs[0] == a {
      assert xs == [a, b];
    } else {
      assert xs == [b, a];
    }
  }

  /** The keys ending in `A` are `AAA` and `GOA`, in either order. */
  lemma ExampleStarts(starts: seq<String>)
    requires ListsStarts(EXAMPLE, starts)
    ensures starts == ["AAA", "GOA"] || starts == ["GOA", "AAA"]
  {
    forall i | 0 <= i < |starts|
      ensures starts[i] == "AAA" || starts[i] == "GOA"
    {
      var s := starts[i];
      assert s in starts;
      assert s in EXAMPLE.nodes && EndsWith(s, 'A');
      assert s in {"AAA", "OOB", "BBB", "CCC", "ZZZ", "GOA", "DDD", "EEE", "FFF", "FEZ"};
    }
    assert "AAA" in EXAMPLE.nodes && "GOA" in EXAMPLE.nodes;
    TwoDistinct(starts, "AAA", "GOA");
  }

  /** The loops found are 1 modulo 2 and 0 modulo 3, in either order. */
  lemma ExampleLoops(fuel: nat, starts: seq<String>, outcomes: seq<Option<Congruence>>, loops: seq<Congruence>)
    requires fuel >= 6 && LoopsFound(EXAMPLE, fuel, starts, outcomes, loops)
    ensures loops == [Congruence(1, 2), Congruence(0, 3)] || loops == [Congruence(0, 3), Congruence(1, 2)]
  {
    ExampleStarts(starts);
    assert LoopOutcome(EXAMPLE, starts[0], fuel, Finished(outcomes[0]));
    assert LoopOutcome(EXAMPLE, starts[1], fuel, Finished(outcomes[1]));
    if starts[0] == "AAA" {
      ExampleLoopFromAAA(fuel, Finished(outcomes[0]));
      ExampleLoopFromGOA(fuel, Finished(outcomes[1]));
    } else {
      ExampleLoopFromGOA(fuel, Finished(outcomes[0]));
      ExampleLoopFromAAA(fuel, Finished(outcomes[1]));
    }
    assert outcomes == [outcomes[0]] + [outcomes[1]];
    PresentAppend([outcomes[0]], outcomes[1]);
    PresentAppend([], outcomes[0]);
    assert [] + [outcomes[0]] == [outcomes[0]];
  }

  /** With no sieve primes from 2 on, a modulus above 1 is kept whole. */
  lemma ExampleFactorise(c: Congruence, sieve: seq<bool>)
    requires sieve == [true, true] && c.modulo > 1
    ensures Factorise(c, sieve) == [(c.modulo, c)]
  {
    assert FactorsFrom(c.value, c.modulo, sieve, 2) == [(c.modulo, c)];
    assert FactorsFrom(c.value, c.modulo, sieve, 1) == [(c.modulo, c)];
  }

  /** Both loops have prime moduli, so converting them keeps them as they are, and the
      answer is 3. */
  lemma ExamplePartTwo(loops: seq<Congruence>, coprime: seq<Congruence>, keys: seq<nat>)
    requires loops == [Congruence(1, 2), Congruence(0, 3)] || loops == [Congruence(0, 3), Congruence(1, 2)]
    requires ListsValues(coprime, keys, BestByPrime(AllFactors(loops, CoprimeSieve(loops))))
    ensures PositiveModuli(coprime) && ChineseRemainder(coprime) == 3
  {
    ExampleBest(loops);
    assert keys == [2, 3] || keys == [3, 2] by {
      assert forall i :: 0 <= i < |keys| ==> keys[i] == 2 || keys[i] == 3;
      TwoDistinct(keys, 2, 3);
    }
    CrtExampleTwo(coprime);
  }

  /** Each prime keeps the one loop whose modulus it is. */
  lemma ExampleBest(loops: seq<Congruence>)
    requires loops == [Congruence(1, 2), Congruence(0, 3)] || loops == [Congruence(0, 3), Congruence(1, 2)]
    ensures BestByPrime(AllFactors(loops, CoprimeSieve(loops))) == map[2 := Congruence(1, 2), 3 := Congruence(0, 3)]
  {
    var sieve := CoprimeSieve(loops);
    var es := AllFactors(loops, sieve);
    ExampleFactors(loops);
    BestByPrimeStep([(loops[0].modulo, loops[0])], (loops[1].modulo, loops[1]));
    BestByPrimeStep([], (loops[0].modulo, loops[0]));
    assert [] + [(loops[0].modulo, loops[0])] == [(loops[0].modulo, loops[0])];
  }

  /** With the largest modulus 3 the sieve holds no prime, so each loop is one factor. */
  lemma ExampleFactors(loops: seq<Congruence>)
    requires loops == [Congruence(1, 2), Congruence(0, 3)] || loops == [Congruence(0, 3), Congruence(1, 2)]
    ensures AllFactors(loops, CoprimeSieve(loops)) == [(loops[0].modulo, loops[0]), (loops[1].modulo, loops[1])]
  {
    assert MaxModulo(loops) == 3;
    assert LeastSquareAbove(3, 0) == 2;
    var sieve := CoprimeSieve(loops);
    assert sieve == [true, true];
    ExampleFactorise(loops[0], sieve);
    ExampleFactorise(loops[1], sieve);
    var first := AllFactors(loops[..1], sieve);
    assert loops[..1][..0] == [];
    assert loops[..1][0] == loops[0];
    assert AllFactors([], sieve) == [];
    assert first == [] + Factorise(loops[0], sieve);
    assert loops[..|loops| - 1] == loops[..1];
  }

  lemma CrtExampleTwo(cs: seq<Congruence>)
    requires cs == [Congruence(1, 2), Congruence(0, 3)] || cs == [Congruence(0, 3), Congruence(1, 2)]
    ensures PositiveModuli(cs) && ChineseRemainder(cs) == 3
  {
    assert Gcd(2, 3) == 1 && Gcd(3, 2) == 1;
    assert Product(cs[1..]) * cs[0].modulo == 6;
    CrtUnique(cs, 3);
  }
}
