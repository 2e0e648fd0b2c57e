/** Day 22: the bricks settle one after another in the order read, each falling until a cube
    would leave the bottom layer or land on a cube of an earlier brick. The bricks it lands
    on are its supporters; taking a brick away makes fall every brick left without one. */
module Day22 {
  import opened Wrappers
  import opened Text
  import opened Day22Bricks
  import Divisibility

  // ---------------------------------------------------------------------------------------
  // Settling, as functions of the bricks settled so far

  /** The brick whose cubes last took cell `p`: a later brick's cube overwrites an
      earlier brick's in the occupancy table. */
  function Occupant(settled: seq<Brick>, p: nat): (r: Option<nat>)
    ensures r.Some? ==> r.value < |settled| && p in settled[r.value]
    ensures r.Some? ==> forall k :: r.value < k < |settled| ==> p !in settled[k]
    ensures r.None? ==> forall k :: 0 <= k < |settled| ==> p !in settled[k]
  {
    if settled == [] then None
    else if p in settled[|settled| - 1] then Some(|settled| - 1)
    else Occupant(settled[..|settled| - 1], p)
  }

  /** No cube on the bottom layer. */
  predicate Aloft(brick: Brick)
  {
    forall i :: 0 <= i < |brick| ==> brick[i] >= LAYER
  }

  /** The cells one layer below a brick's cubes, leaving out the cubes on the bottom layer. */
  function Beneath(brick: Brick): (cells: seq<nat>)
    ensures |cells| <= |brick|
    ensures |cells| == |brick| <==> Aloft(brick)
    ensures Aloft(brick) ==> forall i :: 0 <= i < |brick| ==> cells[i] == brick[i] - LAYER
  {
    if brick == [] then []
    else
      var last := brick[|brick| - 1];
      var earlier := Beneath(brick[..|brick| - 1]);
      assert Aloft(brick) <==> Aloft(brick[..|brick| - 1]) && last >= LAYER;
      earlier + if last >= LAYER then [last - LAYER] else []
  }

  /** The bricks occupying any of `cells`. */
  function OccupantsOf(settled: seq<Brick>, cells: seq<nat>): (r: set<nat>)
    ensures forall k :: k in r ==> k < |settled|
  {
    if cells == [] then {}
    else
      OccupantsOf(settled, cells[..|cells| - 1]) +
      match Occupant(settled, cells[|cells| - 1])
      case Some(k) => {k}
      case None => {}
  }

  /** A brick is among the occupants exactly when it occupies one of the cells. */
  lemma {:induction false} OccupantsOfCells(settled: seq<Brick>, cells: seq<nat>, k: nat)
    ensures k in OccupantsOf(settled, cells) <==> exists i :: 0 <= i < |cells| && Occupant(settled, cells[i]) == Some(k)
  {
    if cells != [] {
      var earlier := cells[..|cells| - 1];
      OccupantsOfCells(settled, earlier, k);
      if k in OccupantsOf(settled, earlier) {
        var i :| 0 <= i < |earlier| && Occupant(settled, earlier[i]) == Some(k);
        assert cells[i] == earlier[i];
      }
      if exists i :: 0 <= i < |cells| && Occupant(settled, cells[i]) == Some(k) {
        var i :| 0 <= i < |cells| && Occupant(settled, cells[i]) == Some(k);
        if i < |earlier| {
          assert earlier[i] == cells[i];
        }
      }
    }
  }

  /** A brick falls one layer at a time while it is clear of the bottom layer and nothing
      occupies the cells beneath it; it ends where it stops, with the bricks beneath as its
      supporters, or none when it reached the bottom layer. */
  function Lower(settled: seq<Brick>, brick: Brick): (r: (Brick, set<nat>))
    requires brick != []
    decreases brick[0]
  {
    var beneath := Beneath(brick);
    if |beneath| < |brick| then (brick, {})
    else
      var below := OccupantsOf(settled, beneath);
      if below != {} then (brick, below)
      else Lower(settled, beneath)
  }

  /** The settled bricks and the supporters of each, settling `bricks` in order. */
  datatype Pile = Pile(settled: seq<Brick>, supporters: seq<set<nat>>)

  predicate NonEmpty(bricks: seq<Brick>)
  {
    forall i :: 0 <= i < |bricks| ==> bricks[i] != []
  }

  function Settle(bricks: seq<Brick>): (pile: Pile)
    requires NonEmpty(bricks)
    ensures |pile.settled| == |pile.supporters| == |bricks|
  {
    if bricks == [] then Pile([], [])
    else
      var before := Settle(bricks[..|bricks| - 1]);
      var lowered := Lower(before.settled, bricks[|bricks| - 1]);
      Pile(before.settled + [lowered.0], before.supporters + [lowered.1])
  }

  /** The brick moved down `d` layers, one layer at a time. */
  function Dropped(brick: Brick, d: nat): Brick
    decreases d
  {
    if d == 0 then brick else Dropped(Beneath(brick), d - 1)
  }

  /** Each of `d` moves down one layer keeps all the brick's cubes and passes through cells
      that no settled brick occupies. */
  predicate FallsFreely(settled: seq<Brick>, brick: Brick, d: nat)
    decreases d
  {
    d == 0 ||
    (var beneath := Beneath(brick);
     |beneath| == |brick| && OccupantsOf(settled, beneath) == {} && FallsFreely(settled, beneath, d - 1))
  }

  /** A brick at rest: on the bottom layer with no supporters, or with its supporters the
      bricks occupying the cells straight beneath it, of which there is one at least. */
  predicate RestsOn(settled: seq<Brick>, brick: Brick, supporters: set<nat>)
  {
    if Aloft(brick) then supporters == OccupantsOf(settled, Beneath(brick)) && supporters != {}
    else supporters == {}
  }

  /** A lowered brick is the brick moved down through free cells, and then it rests. */
  lemma {:induction false} LowerRests(settled: seq<Brick>, brick: Brick) returns (d: nat)
    requires brick != []
    ensures Lower(settled, brick).0 == Dropped(brick, d)
    ensures FallsFreely(settled, brick, d)
    ensures RestsOn(settled, Lower(settled, brick).0, Lower(settled, brick).1)
    decreases brick[0]
  {
    var beneath := Beneath(brick);
    if |beneath| < |brick| || OccupantsOf(settled, beneath) != {} {
      d := 0;
    } else {
      var rest := LowerRests(settled, beneath);
      d := rest + 1;
    }
  }

  /** Lowering never moves a cube up. */
  lemma {:induction false} LowerBelow(settled: seq<Brick>, brick: Brick)
    requires brick != []
    ensures |Lower(settled, brick).0| == |brick|
    ensures forall i :: 0 <= i < |brick| ==> Lower(settled, brick).0[i] <= brick[i]
    decreases brick[0]
  {
    var beneath := Beneath(brick);
    if |beneath| == |brick| && OccupantsOf(settled, beneath) == {} {
      LowerBelow(settled, beneath);
    }
  }

  /** Every supporter of a brick was settled before it: the occupancy table only ever holds
      earlier bricks. */
  lemma SupportersEarlier(bricks: seq<Brick>, j: nat, k: nat)
    requires NonEmpty(bricks) && j < |bricks|
    requires k in Settle(bricks).supporters[j]
    ensures k < j
  {
    SettlePrefix(bricks, j);
    var pre := bricks[..j + 1];
    assert pre[..j] == bricks[..j];
    var earlier := Settle(bricks[..j]).settled;
    assert k in Lower(earlier, bricks[j]).1 by {
      assert Settle(pre).supporters[j] == Lower(earlier, bricks[j]).1;
    }
    LowerSupporters(earlier, bricks[j], k);
  }

  /** A lowered brick's supporters are among the bricks settled before it. */
  lemma LowerSupporters(settled: seq<Brick>, brick: Brick, k: nat)
    requires brick != [] && k in Lower(settled, brick).1
    ensures k < |settled|
  {
    var _ := LowerRests(settled, brick);
    assert k in OccupantsOf(settled, Beneath(Lower(settled, brick).0));
  }

  /** Settling more bricks leaves the earlier ones as they were. */
  lemma {:induction false} SettlePrefix(bricks: seq<Brick>, j: nat)
    requires NonEmpty(bricks) && j < |bricks|
    ensures Settle(bricks[..j + 1]).settled == Settle(bricks).settled[..j + 1]
    ensures Settle(bricks[..j + 1]).supporters == Settle(bricks).supporters[..j + 1]
    decreases |bricks|
  {
    if j + 1 < |bricks| {
      assert bricks[..|bricks| - 1][..j + 1] == bricks[..j + 1];
      SettlePrefix(bricks[..|bricks| - 1], j);
    } else {
      assert bricks[..j + 1] == bricks;
    }
  }

  /** Each settled brick is its brick as read, fallen through free cells onto what supports
      it: a settled brick's supporters are the earlier bricks whose cubes occupy the cells
      straight beneath it, and a brick with no supporter lies on the bottom layer. */
  lemma SettledRests(bricks: seq<Brick>, j: nat) returns (d: nat)
    requires NonEmpty(bricks) && j < |bricks|
    ensures var pile, earlier := Settle(bricks), Settle(bricks[..j]).settled;
            && pile.settled[j] == Dropped(bricks[j], d)
            && FallsFreely(earlier, bricks[j], d)
            && RestsOn(earlier, pile.settled[j], pile.supporters[j])
  {
    SettlePrefix(bricks, j);
    assert bricks[..j + 1][..j] == bricks[..j];
    d := LowerRests(Settle(bricks[..j]).settled, bricks[j]);
  }

  // ---------------------------------------------------------------------------------------
  // The support graph

  /** `SupportGraph`: for each brick, the bricks it rests on and the bricks resting on it. */
  datatype SupportGraph = SupportGraph(supporters: seq<set<nat>>, supporting: seq<set<nat>>)

  /** Brick `k` supports brick `j` in one list exactly when `j` rests on `k` in the other,
      and every supporter was settled before the brick it supports. */
  predicate WellFormed(g: SupportGraph)
  {
    && |g.supporters| == |g.supporting|
    && (forall j, k :: 0 <= j < |g.supporters| && k in g.supporters[j] ==> k < j)
    && (forall k, j :: 0 <= k < |g.supporting| && j in g.supporting[k] ==> k < j < |g.supporting|)
    && (forall k, j :: 0 <= k < |g.supporting| && 0 <= j < |g.supporters| ==>
          (j in g.supporting[k] <==> k in g.supporters[j]))
  }

  /** The bricks resting on each brick. */
  function Inverse(supporters: seq<set<nat>>): (supporting: seq<set<nat>>)
  {
    seq(|supporters|, k => set j | 0 <= j < |supporters| && k in supporters[j])
  }

  /** The graph `SupportGraph::from` builds from `bricks`. */
  function GraphOf(bricks: seq<Brick>): SupportGraph
    requires NonEmpty(bricks)
  {
    var supporters := Settle(bricks).supporters;
    SupportGraph(supporters, Inverse(supporters))
  }

  lemma GraphWellFormed(bricks: seq<Brick>)
    requires NonEmpty(bricks)
    ensures WellFormed(GraphOf(bricks))
  {
    var g := GraphOf(bricks);
    forall j, k | 0 <= j < |g.supporters| && k in g.supporters[j] ensures k < j {
      SupportersEarlier(bricks, j, k);
    }
  }

  /** The lowering loop of `SupportGraph::from` for one brick: while no cube is on the
      bottom layer, collect the bricks in the cells beneath; stop at any, else move down. */
  method LowerBrick(occupied: array<Option<nat>>, ghost settled: seq<Brick>, brick: Brick)
    returns (lowered: Brick, supportedBy: set<nat>)
    requires occupied.Length == CELLS
    requires brick != [] && forall i :: 0 <= i < |brick| ==> brick[i] < CELLS
    requires forall p :: 0 <= p < CELLS ==> occupied[p] == Occupant(settled, p)
    ensures (lowered, supportedBy) == Lower(settled, brick)
  {
    lowered := brick;
    supportedBy := {};
    while true
      invariant lowered != [] && forall i :: 0 <= i < |lowered| ==> lowered[i] < CELLS
      invariant Lower(settled, lowered) == Lower(settled, brick)
      invariant supportedBy == {}
      decreases lowered[0]
    {
      var beneath := Beneath(lowered);
      if |beneath| < |lowered| {
        break;
      }
      supportedBy := CollectSupporters(occupied, settled, beneath);
      if supportedBy != {} {
        break;
      }
      lowered := beneath;
    }
  }

  /** The bricks the occupancy table holds in `cells`. */
  method CollectSupporters(occupied: array<Option<nat>>, ghost settled: seq<Brick>, cells: seq<nat>)
    returns (found: set<nat>)
    requires occupied.Length == CELLS
    requires forall i :: 0 <= i < |cells| ==> cells[i] < CELLS
    requires forall p :: 0 <= p < CELLS ==> occupied[p] == Occupant(settled, p)
    ensures found == OccupantsOf(settled, cells)
  {
    found := {};
    for i := 0 to |cells|
      invariant found == OccupantsOf(settled, cells[..i])
    {
      assert cells[..i + 1][..i] == cells[..i];
      var other := occupied[cells[i]];
      if other.Some? {
        found := found + {other.value};
      }
    }
    assert cells[..|cells|] == cells;
  }

  /** Records the cubes of the brick settled `brickIx`-th in the occupancy table. */
  method Occupy(occupied: array<Option<nat>>, ghost settled: seq<Brick>, brick: Brick, brickIx: nat)
    modifies occupied
    requires occupied.Length == CELLS && brickIx == |settled|
    requires forall i :: 0 <= i < |brick| ==> brick[i] < CELLS
    requires forall p :: 0 <= p < CELLS ==> occupied[p] == Occupant(settled, p)
    ensures forall p :: 0 <= p < CELLS ==> occupied[p] == Occupant(settled + [brick], p)
  {
    for i := 0 to |brick|
      invariant forall p :: 0 <= p < CELLS ==>
                  occupied[p] == if p in brick[..i] then Some(brickIx) else Occupant(settled, p)
    {
      assert brick[..i + 1] == brick[..i] + [brick[i]];
      occupied[brick[i]] := Some(brickIx);
    }
    assert brick[..|brick|] == brick;
    assert (settled + [brick])[..|settled|] == settled;
  }

  /** `SupportGraph::from`: settles the bricks in order, recording each one's supporters,
      then fills in the bricks each one supports. */
  method FromBricks(bricks: seq<Brick>) returns (g: SupportGraph)
    requires NonEmpty(bricks) && Fitting(bricks)
    ensures g == GraphOf(bricks)
  {
    var occupied := new Option<nat>[CELLS](_ => None);
    var supporters: seq<set<nat>> := [];
    ghost var settled: seq<Brick> := [];
    for brickIx := 0 to |bricks|
      invariant Settle(bricks[..brickIx]) == Pile(settled, supporters)
      invariant forall k, i :: 0 <= k < brickIx && 0 <= i < |settled[k]| ==> settled[k][i] < CELLS
      invariant forall p :: 0 <= p < CELLS ==> occupied[p] == Occupant(settled, p)
    {
      assert bricks[..brickIx + 1][..brickIx] == bricks[..brickIx];
      var lowered, supportedBy := LowerBrick(occupied, settled, bricks[brickIx]);
      LowerBelow(settled, bricks[brickIx]);
      Occupy(occupied, settled, lowered, brickIx);
      settled := settled + [lowered];
      supporters := supporters + [supportedBy];
    }
    assert bricks[..|bricks|] == bricks;
    GraphWellFormed(bricks);
    var supporting := Invert(supporters);
    g := SupportGraph(supporters, supporting);
  }

  /** The second pass of `SupportGraph::from`: each brick is added to the set of every one
      of its supporters. */
  method Invert(supporters: seq<set<nat>>) returns (supporting: seq<set<nat>>)
    requires forall j, k :: 0 <= j < |supporters| && k in supporters[j] ==> k < j
    ensures supporting == Inverse(supporters)
  {
    var n := |supporters|;
    supporting := seq(n, _ => {});
    for brickIx := 0 to n
      invariant |supporting| == n
      invariant forall k :: 0 <= k < n ==> supporting[k] == set j | 0 <= j < brickIx && k in supporters[j]
    {
      supporting := AddSupported(supporting, supporters[brickIx], brickIx);
      forall k | 0 <= k < n
        ensures supporting[k] == set j | 0 <= j < brickIx + 1 && k in supporters[j]
      {
        assert (set j | 0 <= j < brickIx + 1 && k in supporters[j]) ==
               (set j | 0 <= j < brickIx && k in supporters[j]) + if k in supporters[brickIx] then {brickIx} else {};
      }
    }
  }

  /** The inner loop of the second pass: `brickIx` joins the set of each of `others`. */
  method AddSupported(supporting: seq<set<nat>>, others: set<nat>, brickIx: nat) returns (after: seq<set<nat>>)
    requires forall k :: k in others ==> k < |supporting|
    ensures |after| == |supporting|
    ensures forall k :: 0 <= k < |after| ==> after[k] == supporting[k] + if k in others then {brickIx} else {}
  {
    after := supporting;
    var rest := others;
    while rest != {}
      invariant rest <= others && |after| == |supporting|
      invariant forall k :: 0 <= k < |after| ==> after[k] == supporting[k] + if k in others - rest then {brickIx} else {}
      decreases |rest|
    {
      var other :| other in rest;
      rest := rest - {other};
      after := after[other := after[other] + {brickIx}];
    }
  }

  // ---------------------------------------------------------------------------------------
  // Bricks that fall

  /** The bricks below index `j` that fall when brick `ix` is taken away: `ix` itself, and
      every brick that has supporters and all of whose supporters fall. */
  function FallenBelow(g: SupportGraph, ix: nat, j: nat): (fallen: set<nat>)
    requires j <= |g.supporters|
    ensures forall k :: k in fallen ==> k < j
  {
    if j == 0 then {}
    else
      var earlier := FallenBelow(g, ix, j - 1);
      var k := j - 1;
      if k == ix || (g.supporters[k] != {} && g.supporters[k] <= earlier) then earlier + {k} else earlier
  }

  function Fallen(g: SupportGraph, ix: nat): set<nat>
  {
    FallenBelow(g, ix, |g.supporters|)
  }

  /** Counting further up only adds bricks above. */
  lemma {:induction false} FallenPrefix(g: SupportGraph, ix: nat, j: nat, m: nat)
    requires j <= m <= |g.supporters|
    ensures FallenBelow(g, ix, j) == set k | k in FallenBelow(g, ix, m) && k < j
    decreases m
  {
    if j < m {
      FallenPrefix(g, ix, j, m - 1);
    }
  }

  /** In a well-formed graph a brick falls exactly when it is the one taken away, or it has
      supporters and they all fall. */
  lemma FallenMembers(g: SupportGraph, ix: nat, b: nat)
    requires WellFormed(g) && b < |g.supporters|
    ensures b in Fallen(g, ix) <==> b == ix || (g.supporters[b] != {} && g.supporters[b] <= Fallen(g, ix))
  {
    var n := |g.supporters|;
    FallenPrefix(g, ix, b, n);
    FallenPrefix(g, ix, b + 1, n);
    var earlier := FallenBelow(g, ix, b);
    assert b in Fallen(g, ix) <==> b in FallenBelow(g, ix, b + 1);
    assert g.supporters[b] <= earlier <==> g.supporters[b] <= Fallen(g, ix) by {
      forall s | s in g.supporters[b] ensures s in earlier <==> s in Fallen(g, ix) {
        assert s < b;
      }
    }
  }

  /** Any set holding `ix` and closed under falling holds every brick that falls. */
  lemma {:induction false} FallenLeast(g: SupportGraph, ix: nat, s: set<nat>, j: nat)
    requires j <= |g.supporters|
    requires ix < |g.supporters| ==> ix in s
    requires forall b :: 0 <= b < |g.supporters| && g.supporters[b] != {} && g.supporters[b] <= s ==> b in s
    ensures FallenBelow(g, ix, j) <= s
  {
    if j > 0 {
      FallenLeast(g, ix, s, j - 1);
    }
  }

  /** Only bricks from `ix` up can fall. */
  lemma {:induction false} FallenAbove(g: SupportGraph, ix: nat, j: nat)
    requires WellFormed(g) && j <= |g.supporters|
    ensures forall k :: k in FallenBelow(g, ix, j) ==> ix <= k
  {
    if j > 0 {
      FallenAbove(g, ix, j - 1);
      var k := j - 1;
      var earlier := FallenBelow(g, ix, k);
      if k < ix && g.supporters[k] != {} {
        var s :| s in g.supporters[k];
        assert s !in earlier;
      }
    }
  }

  function Power(n: nat, x: nat): nat
  {
    if x < n then Divisibility.Pow2(n - 1 - x) else 0
  }

  /** A measure of the work queue of `remove_brick` that each pass of its loop lowers: a
      brick weighs more than all the bricks above it together. */
  function Weight(n: nat, queue: seq<nat>): nat
  {
    if queue == [] then 0 else Weight(n, queue[..|queue| - 1]) + Power(n, queue[|queue| - 1])
  }

  lemma PowerHalves(n: nat, a: nat, b: nat)
    requires a < b < n
    ensures 2 * Power(n, b) <= Power(n, a)
  {
    Divisibility.Pow2Monotone(n - b, n - 1 - a);
  }

  lemma PowerShrinks(n: nat, a: nat, b: nat)
    requires a <= b < n
    ensures Power(n, b) <= Power(n, a)
  {
    Divisibility.Pow2Monotone(n - 1 - b, n - 1 - a);
  }

  /** The inner loop of `remove_brick`: in ascending order, queues each brick resting on
      `remove` all of whose supporters are removed. */
  method QueueUnsupported(g: SupportGraph, remove: nat, removed: set<nat>, queue: seq<nat>)
    returns (after: seq<nat>)
    requires WellFormed(g) && remove < |g.supporting|
    ensures forall b :: b in after <==> b in queue || (b in g.supporting[remove] && g.supporters[b] <= removed)
    ensures Weight(|g.supporting|, after) < Weight(|g.supporting|, queue) + Power(|g.supporting|, remove)
  {
    var n := |g.supporting|;
    after := queue;
    var rest := g.supporting[remove];
    ghost var last := remove;
    while rest != {}
      invariant rest <= g.supporting[remove]
      invariant remove <= last < n && forall b :: b in rest ==> last < b < n
      invariant forall b :: b in after <==> b in queue || (b in g.supporting[remove] - rest && g.supporters[b] <= removed)
      invariant Weight(n, after) + Power(n, last) <= Weight(n, queue) + Power(n, remove)
      decreases |rest|
    {
      ghost var least := Least(rest);
      var brick :| brick in rest && forall x :: x in rest ==> brick <= x;
      rest := rest - {brick};
      PowerShrinks(n, last, brick);
      if g.supporters[brick] <= removed {
        PowerHalves(n, last, brick);
        assert (after + [brick])[..|after|] == after;
        after := after + [brick];
      }
      last := brick;
    }
  }

  /** A non-empty set of naturals has a least element. */
  lemma {:induction false} Least(s: set<nat>) returns (m: nat)
    requires s != {}
    ensures m in s && forall x :: x in s ==> m <= x
    decreases |s|
  {
    var y :| y in s;
    if s == {y} {
      m := y;
    } else {
      var other := Least(s - {y});
      m := if y < other then y else other;
      forall x | x in s ensures m <= x {
        if x != y {
          assert x in s - {y};
        }
      }
    }
  }

  /** `remove_brick`: the number of other bricks that fall when brick `ix` is taken away,
      found with a stack of bricks to remove. */
  method RemoveBrick(g: SupportGraph, ix: nat) returns (count: nat)
    requires WellFormed(g) && ix < |g.supporting|
    ensures count == |Fallen(g, ix)| - 1
  {
    ghost var n := |g.supporting|;
    ghost var fallen := Fallen(g, ix);
    FallenMembers(g, ix, ix);
    var removed: set<nat> := {};
    var queue: seq<nat> := [ix];
    while queue != []
      invariant forall q :: q in queue ==> q in fallen && q < n
      invariant removed <= fallen
      invariant ix in removed || ix in queue
      invariant forall b :: 0 <= b < n && g.supporters[b] != {} && g.supporters[b] <= removed ==> b in removed || b in queue
      decreases Weight(n, queue)
    {
      var remove := queue[|queue| - 1];
      var waiting := queue[..|queue| - 1];
      assert queue == waiting + [remove];
      assert remove in queue;
      queue := waiting;
      removed := removed + {remove};
      queue := QueueUnsupported(g, remove, removed, queue);
      forall b | b in queue ensures b in fallen {
        if b !in waiting {
          FallenMembers(g, ix, b);
        }
      }
      forall b | 0 <= b < n && g.supporters[b] != {} && g.supporters[b] <= removed
        ensures b in removed || b in queue
      {
        if remove !in g.supporters[b] {
          assert g.supporters[b] <= removed - {remove};
        }
      }
    }
    FallenLeast(g, ix, removed, n);
    assert removed == fallen;
    // `saturating_sub(1)` never saturates: the removed brick itself is always counted.
    assert ix in removed;
    count := |removed| - 1;
  }

  /** At most the bricks from `ix` up fall, so at most `n - 1` others. */
  lemma FallenBound(g: SupportGraph, ix: nat)
    requires WellFormed(g) && ix < |g.supporters|
    ensures ix in Fallen(g, ix) && |Fallen(g, ix)| <= |g.supporters| - ix
  {
    FallenMembers(g, ix, ix);
    FallenAbove(g, ix, |g.supporters|);
    SubsetSize(Fallen(g, ix), Range(ix, |g.supporters|));
  }

  lemma {:induction false} SubsetSize(a: set<nat>, b: set<nat>)
    requires a <= b
    ensures |a| <= |b|
    decreases |a|
  {
    if a != {} {
      var x :| x in a;
      SubsetSize(a - {x}, b - {x});
    }
  }

  /** The numbers from `a` up to but not including `b`. */
  function Range(a: nat, b: nat): (r: set<nat>)
    ensures |r| == if a < b then b - a else 0
    ensures forall k :: k in r <==> a <= k < b
    decreases b - a
  {
    if a < b then {a} + Range(a + 1, b) else {}
  }

  // ---------------------------------------------------------------------------------------
  // Bricks that can go

  /** Every brick resting on brick `i` rests on another one too. */
  predicate Removable(g: SupportGraph, i: nat)
    requires WellFormed(g) && i < |g.supporting|
  {
    forall b :: b in g.supporting[i] ==> |g.supporters[b]| > 1
  }

  /** `removable_bricks`, over the first `k` bricks. */
  function RemovableAmong(g: SupportGraph, k: nat): nat
    requires WellFormed(g) && k <= |g.supporting|
  {
    if k == 0 then 0 else RemovableAmong(g, k - 1) + if Removable(g, k - 1) then 1 else 0
  }

  function RemovableBricks(g: SupportGraph): nat
    requires WellFormed(g)
  {
    RemovableAmong(g, |g.supporting|)
  }

  /** Taking brick `i` away makes no other brick fall. */
  predicate FallsAlone(g: SupportGraph, i: nat)
  {
    Fallen(g, i) == {i}
  }

  /** A set with two elements or more holds one other than `i`. */
  lemma OtherThan(s: set<nat>, i: nat)
    requires |s| > 1
    ensures exists x :: x in s && x != i
  {
    var y :| y in s;
    if y == i {
      assert |s - {y}| > 0;
      var z :| z in s - {y};
    }
  }

  /** A brick can go exactly when taking it away makes no other brick fall. */
  lemma RemovableFallsAlone(g: SupportGraph, i: nat)
    requires WellFormed(g) && i < |g.supporting|
    ensures Removable(g, i) <==> FallsAlone(g, i)
  {
    var n := |g.supporting|;
    FallenBound(g, i);
    if Removable(g, i) {
      forall b | 0 <= b < n && b != i && i in g.supporters[b] ensures exists x :: x in g.supporters[b] && x != i {
        OtherThan(g.supporters[b], i);
      }
      FallenLeast(g, i, {i}, n);
    } else {
      var b :| b in g.supporting[i] && |g.supporters[b]| <= 1;
      assert i in g.supporters[b];
      assert g.supporters[b] == {i} by {
        assert |g.supporters[b] - {i}| == 0;
      }
      FallenMembers(g, i, b);
      assert b in Fallen(g, i);
    }
  }

  /** The bricks among the first `k` whose removal makes nothing else fall. */
  function AloneAmong(g: SupportGraph, k: nat): (r: set<nat>)
    ensures forall i: nat :: i in r <==> i < k && FallsAlone(g, i)
  {
    if k == 0 then {} else AloneAmong(g, k - 1) + if FallsAlone(g, k - 1) then {k - 1} else {}
  }

  /** The bricks among the first `k` that can go. */
  function RemovableSet(g: SupportGraph, k: nat): (r: set<nat>)
    requires WellFormed(g) && k <= |g.supporting|
    ensures forall i: nat :: i in r <==> i < k && Removable(g, i)
  {
    if k == 0 then {} else RemovableSet(g, k - 1) + if Removable(g, k - 1) then {k - 1} else {}
  }

  /** `removable_bricks` counts the bricks that can go. */
  lemma {:induction false} RemovableSize(g: SupportGraph, k: nat)
    requires WellFormed(g) && k <= |g.supporting|
    ensures RemovableAmong(g, k) == |RemovableSet(g, k)|
  {
    if k > 0 {
      RemovableSize(g, k - 1);
      var before := RemovableSet(g, k - 1);
      if Removable(g, k - 1) {
        assert k - 1 !in before;
        assert |before + {k - 1}| == |before| + 1;
      }
    }
  }

  /** `removable_bricks` counts the bricks whose removal makes nothing else fall. */
  lemma RemovableCounts(g: SupportGraph)
    requires WellFormed(g)
    ensures RemovableBricks(g) == |AloneAmong(g, |g.supporting|)|
  {
    var n := |g.supporting|;
    RemovableSize(g, n);
    forall i: nat | i < n ensures Removable(g, i) <==> FallsAlone(g, i) {
      RemovableFallsAlone(g, i);
    }
    assert RemovableSet(g, n) == AloneAmong(g, n);
  }

  /** Brick `ix` is among those that fall when it is taken away. */
  lemma {:induction false} FallenHolds(g: SupportGraph, ix: nat, j: nat)
    requires ix < j <= |g.supporters|
    ensures ix in FallenBelow(g, ix, j)
  {
    if ix < j - 1 {
      FallenHolds(g, ix, j - 1);
    }
  }

  /** The answer of part two: the bricks that fall, other than the one taken away, summed
      over taking each of the first `k` bricks away. */
  function OthersFalling(g: SupportGraph, k: nat): nat
    requires k <= |g.supporters|
  {
    if k == 0 then 0
    else
      FallenHolds(g, k - 1, |g.supporters|);
      OthersFalling(g, k - 1) + (|Fallen(g, k - 1)| - 1)
  }

  /** The sum of `part_two` over the bricks of a graph. */
  method TotalFalling(g: SupportGraph) returns (total: nat)
    requires WellFormed(g)
    ensures total == OthersFalling(g, |g.supporters|)
  {
    total := 0;
    for ix := 0 to |g.supporting|
      invariant total == OthersFalling(g, ix)
    {
      var count := RemoveBrick(g, ix);
      total := total + count;
    }
  }

  // ---------------------------------------------------------------------------------------
  // The two parts

  /** The bricks as `read_bricks` returns them, in the order this model sorts them. */
  function Sorted(input: String): seq<Brick>
  {
    SortByFirst(Parsed(Lines(input)))
  }

  /** Every cube lies in the occupancy table, which the source indexes without a check. */
  predicate Fitting(bricks: seq<Brick>)
  {
    forall j, i :: 0 <= j < |bricks| && 0 <= i < |bricks[j]| ==> bricks[j][i] < CELLS
  }

  /** `part_one`: None without bricks, otherwise the number of bricks that can be taken
      away without any other falling. */
  method PartOne(input: String) returns (r: Option<nat>)
    requires Fitting(Sorted(input))
    ensures r.None? <==> Parsed(Lines(input)) == []
    ensures r.Some? ==> NonEmpty(Sorted(input)) && WellFormed(GraphOf(Sorted(input)))
                        && r.value == RemovableBricks(GraphOf(Sorted(input)))
  {
    var bricks := ReadBricks(input);
    if bricks == [] {
      return None;
    }
    var graph := FromBricks(bricks);
    GraphWellFormed(bricks);
    r := Some(RemovableBricks(graph));
  }

  /** `part_two`: None without bricks, otherwise the number of other bricks that fall,
      summed over taking each brick away in turn. */
  method PartTwo(input: String) returns (r: Option<nat>)
    requires Fitting(Sorted(input))
    ensures r.None? <==> Parsed(Lines(input)) == []
    ensures r.Some? ==> NonEmpty(Sorted(input)) && r.value == OthersFalling(GraphOf(Sorted(input)), |Sorted(input)|)
  {
    var bricks := ReadBricks(input);
    if bricks == [] {
      return None;
    }
    var graph := FromBricks(bricks);
    GraphWellFormed(bricks);
    var total := TotalFalling(graph);
    r := Some(total);
  }
}
