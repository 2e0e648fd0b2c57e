/** Day 24: hailstones in the xy-plane. Each hailstone moves from its position by its
    velocity every step; two paths cross where the lines through them meet. The solver
    classifies each pair as never crossing at one point, crossing in the past, or crossing in
    the future at a point estimated from the crossing time in tenths of a step, and counts the
    future crossings inside a square test area. */
module Day24 {
  import opened Wrappers
  import opened Text
  import opened Divisibility

  datatype Point = Point(x: int, y: int)

  datatype Hailstone = Hailstone(position: Point, velocity: Point)

  /** The source's `Intersection`: `None`, `Past` or `Future { x, y }`. */
  datatype Intersection = NoIntersection | Past | Future(x: int, y: int)

  /** The inclusive range `[min, max]` of both coordinates. */
  datatype TestArea = TestArea(min: int, max: int)

  predicate InI64(v: int) { I64_MIN <= v < I64_LIMIT }

  // ---------------------------------------------------------------------------------------
  // Integer arithmetic

  /** Rust's `/` on signed integers: the quotient rounded toward zero. */
  function Quot(n: int, d: int): (q: int)
    requires d != 0
    ensures Abs(q) == Abs(n) / Abs(d)
    ensures q < 0 <==> Abs(n) >= Abs(d) && (n < 0) != (d < 0)
  {
    var m := Abs(n) / Abs(d);
    assert m >= 1 <==> Abs(n) >= Abs(d) by { QuotientAtLeastOne(Abs(n), Abs(d)); }
    if (n < 0) == (d < 0) then m else -m
  }

  lemma QuotientAtLeastOne(n: nat, d: nat)
    requires d > 0
    ensures n / d >= 1 <==> n >= d
  {
    DivMod(n, d);
    if n / d >= 1 {
      MulAtLeast(d, n / d);
    }
  }

  /** A division without remainder is exact in either sign. */
  lemma QuotExact(k: int, d: int)
    requires d != 0
    ensures Quot(k * d, d) == k
  {
    MulSign(k, d);
    assert Abs(k * d) / Abs(d) == Abs(k) by {
      MulSign(Abs(d), Abs(k));
      ExactQuotient(Abs(d), Abs(k));
    }
  }

  /** The magnitude and the sign of a product. */
  lemma MulSign(k: int, d: int)
    ensures Abs(k * d) == Abs(d) * Abs(k)
    ensures k * d < 0 <==> (k < 0 && d > 0) || (k > 0 && d < 0)
  {
    if k < 0 && d < 0 {
      assert k * d == (-k) * (-d);
    } else if k < 0 {
      assert k * d == -((-k) * d);
    } else if d < 0 {
      assert k * d == -(k * (-d));
    }
  }

  // ---------------------------------------------------------------------------------------
  // The crossing of two paths

  predicate Stationary(v: Point) { v.x == 0 && v.y == 0 }

  /** The cross product of two vectors: zero exactly when they are parallel. */
  function Cross(u: Point, v: Point): int { u.x * v.y - u.y * v.x }

  /** The vector from the second hailstone's position to the first's. */
  function Offset(a: Hailstone, b: Hailstone): Point
  {
    Point(a.position.x - b.position.x, a.position.y - b.position.y)
  }

  /** The paths have no single crossing point: a hailstone does not move, or the two move in
      parallel. */
  predicate NoSingleCrossing(a: Hailstone, b: Hailstone)
  {
    Stationary(a.velocity) || Stationary(b.velocity) || Cross(a.velocity, b.velocity) == 0
  }

  /** The denominator of both crossing times, from the points `(x1, y1)`, `(x2, y2)` one step
      apart on the first path and `(x3, y3)`, `(x4, y4)` on the second: the cross product of
      the velocities. */
  function Denominator(a: Hailstone, b: Hailstone): (den: int)
    ensures den == Cross(a.velocity, b.velocity)
  {
    var (x1, y1) := (a.position.x, a.position.y);
    var (x2, y2) := (x1 + a.velocity.x, y1 + a.velocity.y);
    var (x3, y3) := (b.position.x, b.position.y);
    var (x4, y4) := (x3 + b.velocity.x, y3 + b.velocity.y);
    (y4 - y3) * (x2 - x1) - (x4 - x3) * (y2 - y1)
  }

  /** The numerator of the first hailstone's crossing time. */
  function NumeratorA(a: Hailstone, b: Hailstone): (n: int)
    ensures n == Cross(b.velocity, Offset(a, b))
  {
    var (x1, y1) := (a.position.x, a.position.y);
    var (x3, y3) := (b.position.x, b.position.y);
    var (x4, y4) := (x3 + b.velocity.x, y3 + b.velocity.y);
    (x4 - x3) * (y1 - y3) - (y4 - y3) * (x1 - x3)
  }

  /** The numerator of the second hailstone's crossing time. */
  function NumeratorB(a: Hailstone, b: Hailstone): (n: int)
    ensures n == Cross(a.velocity, Offset(a, b))
  {
    var (x1, y1) := (a.position.x, a.position.y);
    var (x2, y2) := (x1 + a.velocity.x, y1 + a.velocity.y);
    var (x3, y3) := (b.position.x, b.position.y);
    (x2 - x1) * (y1 - y3) - (y2 - y1) * (x1 - x3)
  }

  /** The paths meet at the first hailstone's time `NumeratorA / Denominator` and the second's
      time `NumeratorB / Denominator`: scaled by the denominator, both positions agree. */
  lemma CrossingPoint(a: Hailstone, b: Hailstone)
    ensures var (den, na, nb) := (Denominator(a, b), NumeratorA(a, b), NumeratorB(a, b));
            den * a.position.x + na * a.velocity.x == den * b.position.x + nb * b.velocity.x
            && den * a.position.y + na * a.velocity.y == den * b.position.y + nb * b.velocity.y
  {
    var (u, w, d) := (a.velocity, b.velocity, Offset(a, b));
    var den := Denominator(a, b);
    CrossingX(u.x, u.y, w.x, w.y, d.x, d.y);
    CrossingY(u.x, u.y, w.x, w.y, d.x, d.y);
    MulSub(den, a.position.x, b.position.x);
    MulSub(den, a.position.y, b.position.y);
  }

  lemma CrossingX(ux: int, uy: int, wx: int, wy: int, dx: int, dy: int)
    ensures (ux * dy - uy * dx) * wx - (wx * dy - wy * dx) * ux == (ux * wy - uy * wx) * dx
  {
    var p, q, r := ux * dy * wx, uy * dx * wx, wy * dx * ux;
    assert (ux * dy - uy * dx) * wx == p - q;
    assert (wx * dy - wy * dx) * ux == p - r;
    assert (ux * wy - uy * wx) * dx == r - q;
  }

  lemma CrossingY(ux: int, uy: int, wx: int, wy: int, dx: int, dy: int)
    ensures (ux * dy - uy * dx) * wy - (wx * dy - wy * dx) * uy == (ux * wy - uy * wx) * dy
  {
    var p, q, r := ux * dy * wy, uy * dx * wy, wx * dy * uy;
    assert (ux * dy - uy * dx) * wy == p - q;
    assert (wx * dy - wy * dx) * uy == r - q;
    assert (ux * wy - uy * wx) * dy == p - r;
  }

  /** The source's `i64` arithmetic in `intersection` stays in range for this pair, at every
      step of the path the computation takes. The functions below compute on unbounded
      integers, which agree with `i64` when this holds; the operations that run them require it. */
  predicate Fits64(a: Hailstone, b: Hailstone)
  {
    var (x1, y1) := (a.position.x, a.position.y);
    var (x2, y2) := (x1 + a.velocity.x, y1 + a.velocity.y);
    var (x3, y3) := (b.position.x, b.position.y);
    var (x4, y4) := (x3 + b.velocity.x, y3 + b.velocity.y);
    InI64(x1) && InI64(y1) && InI64(x3) && InI64(y3)
    && InI64(a.velocity.x) && InI64(a.velocity.y) && InI64(b.velocity.x) && InI64(b.velocity.y)
    && (Stationary(a.velocity) || Stationary(b.velocity) ||
      (InI64(x2) && InI64(y2) && InI64(x4) && InI64(y4) && InI64(x1 - x3) && InI64(y1 - y3)
       && InI64((y4 - y3) * (x2 - x1)) && InI64((x4 - x3) * (y2 - y1)) && InI64(Denominator(a, b))
       && (Denominator(a, b) == 0 ||
         (InI64((x4 - x3) * (y1 - y3)) && InI64((y4 - y3) * (x1 - x3))
          && InI64(NumeratorA(a, b)) && InI64(10 * NumeratorA(a, b))
          && InI64((x2 - x1) * (y1 - y3)) && InI64((y2 - y1) * (x1 - x3))
          && InI64(NumeratorB(a, b)) && InI64(10 * NumeratorB(a, b))
          && var ua := Quot(10 * NumeratorA(a, b), Denominator(a, b));
             var ub := Quot(10 * NumeratorB(a, b), Denominator(a, b));
             InI64(ua) && InI64(ub)
             && (ua < 0 || ub < 0 ||
               (InI64(x1 * 10) && InI64(ua * (x2 - x1)) && InI64(x1 * 10 + ua * (x2 - x1))
                && InI64(y1 * 10) && InI64(ua * (y2 - y1)) && InI64(y1 * 10 + ua * (y2 - y1))))))))
  }

  /** The future point reported for a crossing `tenths` tenths of a step ahead of the first
      hailstone: its position advanced that far, each coordinate rounded toward zero. */
  function EstimatedPoint(a: Hailstone, tenths: int): Intersection
  {
    Future(Quot(a.position.x * 10 + tenths * a.velocity.x, 10),
           Quot(a.position.y * 10 + tenths * a.velocity.y, 10))
  }

  /** A crossing time `n / den` lies in the past. */
  predicate Negative(n: int, den: int) { n != 0 && (n < 0) != (den < 0) }

  /** The paths cross at one point, at a time in the past of one of the two hailstones. */
  predicate CrossedBefore(a: Hailstone, b: Hailstone)
  {
    var den := Cross(a.velocity, b.velocity);
    !NoSingleCrossing(a, b) && (Negative(NumeratorA(a, b), den) || Negative(NumeratorB(a, b), den))
  }

  /** `Hailstone2D::intersection` as written: the crossing times, counted in tenths and
      rounded toward zero, decide between past and future. */
  function IntersectionAsWritten(a: Hailstone, b: Hailstone): (r: Intersection)
    ensures r == NoIntersection <==> NoSingleCrossing(a, b)
  {
    if Stationary(a.velocity) then NoIntersection
    else if Stationary(b.velocity) then NoIntersection
    else
      var den := Denominator(a, b);
      if den == 0 then NoIntersection
      else
        var ua := Quot(10 * NumeratorA(a, b), den);
        var ub := Quot(10 * NumeratorB(a, b), den);
        if ua < 0 || ub < 0 then Past
        else EstimatedPoint(a, ua)
  }

  /** What the source reports as past did cross in the past. */
  lemma AsWrittenPastIsPast(a: Hailstone, b: Hailstone)
    requires IntersectionAsWritten(a, b) == Past
    ensures CrossedBefore(a, b)
  {
    var den := Denominator(a, b);
    var (na, nb) := (NumeratorA(a, b), NumeratorB(a, b));
    if Quot(10 * na, den) < 0 {
      assert Negative(na, den);
    } else {
      assert Negative(nb, den);
    }
  }

  /** The crossing of `((1, 0) @ (20, 0))` with `((0, 5) @ (0, -1))` lies at `(0, 0)`, a
      twentieth of a step in the first hailstone's past; the tenths round to zero and the
      source reports a future crossing at `(1, 0)`. */
  lemma RecentPastAsWritten()
    ensures var (a, b) := (Hailstone(Point(1, 0), Point(20, 0)), Hailstone(Point(0, 5), Point(0, -1)));
            Fits64(a, b) && CrossedBefore(a, b) && IntersectionAsWritten(a, b) == Future(1, 0)
  {
  }

  /** `Hailstone2D::intersection` with the past decided by the signs of the exact crossing
      times; the future point is estimated as the source does. */
  function IntersectionOf(a: Hailstone, b: Hailstone): (r: Intersection)
    ensures r == NoIntersection <==> NoSingleCrossing(a, b)
    ensures r == Past <==> CrossedBefore(a, b)
  {
    if Stationary(a.velocity) then NoIntersection
    else if Stationary(b.velocity) then NoIntersection
    else
      var den := Denominator(a, b);
      if den == 0 then NoIntersection
      else if Negative(NumeratorA(a, b), den) || Negative(NumeratorB(a, b), den) then Past
      else EstimatedPoint(a, Quot(10 * NumeratorA(a, b), den))
  }

  /** The two differ only on crossings less than a tenth of a step in a hailstone's past,
      which the source reports as future ones. */
  lemma AsWrittenDiffers(a: Hailstone, b: Hailstone)
    requires IntersectionAsWritten(a, b) != IntersectionOf(a, b)
    ensures IntersectionAsWritten(a, b).Future? && IntersectionOf(a, b) == Past
    ensures var (den, na, nb) := (Denominator(a, b), NumeratorA(a, b), NumeratorB(a, b));
            (Negative(na, den) && 10 * Abs(na) < Abs(den)) || (Negative(nb, den) && 10 * Abs(nb) < Abs(den))
  {
    var den := Denominator(a, b);
    var (na, nb) := (NumeratorA(a, b), NumeratorB(a, b));
    if IntersectionAsWritten(a, b) == Past {
      AsWrittenPastIsPast(a, b);
    }
    assert Abs(10 * na) == 10 * Abs(na) && Abs(10 * nb) == 10 * Abs(nb);
  }

  /** A crossing a whole number `k` of steps ahead of the first hailstone, and not behind the
      second, is reported exactly: the first hailstone's position after `k` steps, which lies
      on the second path at its own crossing time. */
  lemma ExactCrossing(a: Hailstone, b: Hailstone, k: nat)
    requires !NoSingleCrossing(a, b)
    requires NumeratorA(a, b) == k * Denominator(a, b) && !Negative(NumeratorB(a, b), Denominator(a, b))
    ensures var (x, y) := (a.position.x + k * a.velocity.x, a.position.y + k * a.velocity.y);
            IntersectionOf(a, b) == Future(x, y)
            && Denominator(a, b) * x == Denominator(a, b) * b.position.x + NumeratorB(a, b) * b.velocity.x
            && Denominator(a, b) * y == Denominator(a, b) * b.position.y + NumeratorB(a, b) * b.velocity.y
  {
    var (den, na) := (Denominator(a, b), NumeratorA(a, b));
    var (p, v) := (a.position, a.velocity);
    ScaledMultiple(na, k, den);
    QuotExact(10 * k, den);
    assert !Negative(na, den) by {
      if k > 0 {
        MulPositive(k, 1);
        ScaledSign(na, k, den);
      }
    }
    assert IntersectionOf(a, b) == EstimatedPoint(a, 10 * k);
    Advance(p.x, k, v.x);
    Advance(p.y, k, v.y);
    QuotExact(p.x + k * v.x, 10);
    QuotExact(p.y + k * v.y, 10);
    CrossingPoint(a, b);
    AdvanceScaled(den, p.x, k, v.x, na);
    AdvanceScaled(den, p.y, k, v.y, na);
  }

  lemma ScaledMultiple(n: int, k: int, d: int)
    requires n == k * d
    ensures 10 * n == (10 * k) * d
  {
  }

  lemma ScaledSign(n: int, k: int, d: int)
    requires n == k * d && k > 0
    ensures (n < 0) == (d < 0) && (n == 0) == (d == 0)
  {
    if d > 0 {
      MulPositive(d, k);
    } else if d < 0 {
      MulPositive(-d, k);
      assert n == -((-d) * k);
    }
  }

  lemma Advance(p: int, k: int, v: int)
    ensures p * 10 + (10 * k) * v == (p + k * v) * 10
  {
  }

  lemma AdvanceScaled(den: int, p: int, k: int, v: int, n: int)
    requires n == k * den
    ensures den * (p + k * v) == den * p + n * v
  {
    assert den * (k * v) == (k * den) * v;
  }

  // ---------------------------------------------------------------------------------------
  // The test area

  /** `TestArea::is_value_in_range`. */
  predicate InRange(area: TestArea, value: int) { area.min <= value <= area.max }

  /** `TestArea::contains`: only a future crossing with both coordinates in range. */
  function Contains(area: TestArea, crossing: Intersection): (r: bool)
    ensures r <==> crossing.Future? && area.min <= crossing.x <= area.max && area.min <= crossing.y <= area.max
  {
    match crossing
    case NoIntersection => false
    case Past => false
    case Future(x, y) => InRange(area, x) && InRange(area, y)
  }

  /** Every pair of hailstones keeps the `i64` arithmetic in range. */
  predicate AllFit(hailstones: seq<Hailstone>)
  {
    forall i, j :: 0 <= i < j < |hailstones| ==> Fits64(hailstones[i], hailstones[j])
  }

  /** The pairs `(i, j)`, `i < j < n`, with `i` below `first`, that pass `test`. */
  ghost function PairsFrom(test: (nat, nat) -> bool, n: nat, first: nat): set<(nat, nat)>
  {
    set i: nat, j: nat | i < first && i < j < n && test(i, j) :: (i, j)
  }

  /** The pairs `(i, j)`, `i < j < bound`, `j < n`, that pass `test`. */
  ghost function PairsOf(test: (nat, nat) -> bool, n: nat, i: nat, bound: nat): set<(nat, nat)>
  {
    set j: nat | i < j < bound && j < n && test(i, j) :: (i, j)
  }

  /** Counting the pairs row by row: row `i` adds its pairs to those of the rows before. */
  lemma PairsFromStep(test: (nat, nat) -> bool, n: nat, i: nat)
    ensures |PairsFrom(test, n, i + 1)| == |PairsFrom(test, n, i)| + |PairsOf(test, n, i, n)|
  {
    var (before, row) := (PairsFrom(test, n, i), PairsOf(test, n, i, n));
    assert PairsFrom(test, n, i + 1) == before + row;
    assert before * row == {};
  }

  /** Counting one row pair by pair: pair `(i, j)` counts once when it passes. */
  lemma PairsOfStep(test: (nat, nat) -> bool, n: nat, i: nat, j: nat)
    requires i < j < n
    ensures |PairsOf(test, n, i, j + 1)| == |PairsOf(test, n, i, j)| + if test(i, j) then 1 else 0
  {
    var row := PairsOf(test, n, i, j);
    if test(i, j) {
      assert PairsOf(test, n, i, j + 1) == row + {(i, j)};
      assert (i, j) !in row;
    } else {
      assert PairsOf(test, n, i, j + 1) == row;
    }
  }

  lemma NoPairsYet(test: (nat, nat) -> bool, n: nat, i: nat)
    ensures |PairsFrom(test, n, 0)| == 0 && |PairsOf(test, n, i, i + 1)| == 0
  {
    assert PairsFrom(test, n, 0) == {};
    assert PairsOf(test, n, i, i + 1) == {};
  }

  /** Hailstones `i` and `j` cross in the future inside the area. */
  function CrossTest(hailstones: seq<Hailstone>, area: TestArea): (nat, nat) -> bool
  {
    (i: nat, j: nat) => i < |hailstones| && j < |hailstones| && Contains(area, IntersectionOf(hailstones[i], hailstones[j]))
  }

  /** Every unordered pair of hailstones whose future crossing lies in the area. */
  ghost function CrossingPairs(hailstones: seq<Hailstone>, area: TestArea): set<(nat, nat)>
  {
    PairsFrom(CrossTest(hailstones, area), |hailstones|, |hailstones|)
  }

  /** The crossing pairs are exactly the pairs `i < j` whose future crossing lies in the area. */
  lemma CrossingPairsMembers(hailstones: seq<Hailstone>, area: TestArea, i: nat, j: nat)
    ensures (i, j) in CrossingPairs(hailstones, area) <==>
              i < j < |hailstones| && Contains(area, IntersectionOf(hailstones[i], hailstones[j]))
  {
  }

  /** `intersecting_pairs_in_area`: every hailstone against each later one, counting the
      crossings inside the area. */
  method IntersectingPairsInArea(hailstones: seq<Hailstone>, area: TestArea) returns (count: nat)
    requires AllFit(hailstones)
    ensures count == |CrossingPairs(hailstones, area)|
  {
    count := 0;
    var (test, n) := (CrossTest(hailstones, area), |hailstones|);
    NoPairsYet(test, n, 0);
    for ix := 0 to n
      invariant count == |PairsFrom(test, n, ix)|
    {
      var later := CountLater(hailstones, area, ix);
      PairsFromStep(test, n, ix);
      count := count + later;
    }
  }

  /** The inner loop: the crossings of hailstone `ix` with each later one inside the area. */
  method CountLater(hailstones: seq<Hailstone>, area: TestArea, ix: nat) returns (count: nat)
    requires ix < |hailstones|
    ensures count == |PairsOf(CrossTest(hailstones, area), |hailstones|, ix, |hailstones|)|
  {
    count := 0;
    var (test, n) := (CrossTest(hailstones, area), |hailstones|);
    NoPairsYet(test, n, ix);
    var first := hailstones[ix];
    for jx := ix + 1 to n
      invariant count == |PairsOf(test, n, ix, jx)|
    {
      PairsOfStep(test, n, ix, jx);
      if Contains(area, IntersectionOf(first, hailstones[jx])) {
        count := count + 1;
      }
    }
  }

  // ---------------------------------------------------------------------------------------
  // The examples

  const EXAMPLE: seq<Hailstone> :=
    [Hailstone(Point(19, 13), Point(-2, 1)), Hailstone(Point(18, 19), Point(-1, -1)),
     Hailstone(Point(20, 25), Point(-2, -2)), Hailstone(Point(12, 31), Point(-1, -2)),
     Hailstone(Point(20, 19), Point(1, -5))]

  /** The source's test of parallel paths. */
  lemma NoIntersectionExample()
    ensures IntersectionAsWritten(EXAMPLE[1], EXAMPLE[2]) == IntersectionOf(EXAMPLE[1], EXAMPLE[2]) == NoIntersection
  {
  }

  /** The source's test of a crossing in the past. */
  lemma PastExample()
    ensures IntersectionAsWritten(EXAMPLE[0], EXAMPLE[4]) == IntersectionOf(EXAMPLE[0], EXAMPLE[4]) == Past
  {
  }

  /** The source's tests of future crossings, at (14.33, 15.33) and (11.67, 16.67) rounded
      toward zero. */
  lemma FutureExamples()
    ensures IntersectionAsWritten(EXAMPLE[0], EXAMPLE[1]) == IntersectionOf(EXAMPLE[0], EXAMPLE[1]) == Future(14, 15)
    ensures IntersectionAsWritten(EXAMPLE[0], EXAMPLE[2]) == IntersectionOf(EXAMPLE[0], EXAMPLE[2]) == Future(11, 16)
  {
    var (a, b, c) := (EXAMPLE[0], EXAMPLE[1], EXAMPLE[2]);
    assert Denominator(a, b) == 3 && NumeratorA(a, b) == 7 && NumeratorB(a, b) == 11;
    assert Quot(70, 3) == 23 && Quot(110, 3) == 36 && Quot(144, 10) == 14 && Quot(153, 10) == 15;
    assert Denominator(a, c) == 6 && NumeratorA(a, c) == 22 && NumeratorB(a, c) == 25;
    assert Quot(220, 6) == 36 && Quot(250, 6) == 41 && Quot(118, 10) == 11 && Quot(166, 10) == 16;
  }

  /** The example's other crossings lie outside `[7, 27]` or in the past. */
  lemma OtherExamples()
    ensures IntersectionOf(EXAMPLE[0], EXAMPLE[3]) == Future(6, 19)
    ensures IntersectionOf(EXAMPLE[1], EXAMPLE[3]) == Future(-6, -5)
    ensures IntersectionOf(EXAMPLE[2], EXAMPLE[3]) == Future(-2, 3)
    ensures IntersectionOf(EXAMPLE[1], EXAMPLE[4]) == IntersectionOf(EXAMPLE[2], EXAMPLE[4]) == Past
    ensures IntersectionOf(EXAMPLE[3], EXAMPLE[4]) == Past
  {
    var h := EXAMPLE;
    assert Denominator(h[0], h[3]) == 5 && NumeratorA(h[0], h[3]) == 32 && NumeratorB(h[0], h[3]) == 29;
    assert Quot(320, 5) == 64 && Quot(62, 10) == 6 && Quot(194, 10) == 19;
    assert Denominator(h[1], h[3]) == 1 && NumeratorA(h[1], h[3]) == 24 && NumeratorB(h[1], h[3]) == 18;
    assert Quot(240, 1) == 240 && Quot(-60, 10) == -6 && Quot(-50, 10) == -5;
    assert Denominator(h[2], h[3]) == 2 && NumeratorA(h[2], h[3]) == 22 && NumeratorB(h[2], h[3]) == 28;
    assert Quot(220, 2) == 110 && Quot(-20, 10) == -2 && Quot(30, 10) == 3;
    assert Denominator(h[1], h[4]) == 6 && NumeratorA(h[1], h[4]) == -10;
    assert Denominator(h[2], h[4]) == 12 && NumeratorB(h[2], h[4]) == -12;
    assert Denominator(h[3], h[4]) == 7 && NumeratorA(h[3], h[4]) == -28;
  }

  /** Inside `[7, 27]`, the first hailstone crosses the second and the third, and no other
      pair crosses. */
  lemma ExampleTests()
    ensures var test := CrossTest(EXAMPLE, TestArea(7, 27));
            test(0, 1) && test(0, 2) && !test(0, 3) && !test(0, 4)
            && !test(1, 2) && !test(1, 3) && !test(1, 4) && !test(2, 3) && !test(2, 4) && !test(3, 4)
  {
    var test := CrossTest(EXAMPLE, TestArea(7, 27));
    assert test(0, 1) && test(0, 2) by { FutureExamples(); }
    assert !test(0, 4) && !test(1, 2) by { PastExample(); NoIntersectionExample(); }
    assert !test(0, 3) && !test(1, 3) && !test(2, 3) && !test(1, 4) && !test(2, 4) && !test(3, 4) by {
      OtherExamples();
    }
  }

  /** Five hailstones whose only passing pairs are `(0, 1)` and `(0, 2)`: two pairs in all. */
  lemma FiveRows(test: (nat, nat) -> bool)
    requires test(0, 1) && test(0, 2) && !test(0, 3) && !test(0, 4)
    requires !test(1, 2) && !test(1, 3) && !test(1, 4) && !test(2, 3) && !test(2, 4) && !test(3, 4)
    ensures |PairsFrom(test, 5, 5)| == 2
  {
    for i := 0 to 5
      invariant |PairsFrom(test, 5, i)| == if i == 0 then 0 else 2
    {
      NoPairsYet(test, 5, i);
      for j := i + 1 to 5
        invariant |PairsOf(test, 5, i, j)| == if i == 0 then (if j >= 3 then 2 else j - 1) else 0
      {
        PairsOfStep(test, 5, i, j);
      }
      PairsFromStep(test, 5, i);
    }
  }

  /** Two of the example's crossings lie in `[7, 27]`. */
  lemma PairsInAreaExample()
    ensures |CrossingPairs(EXAMPLE, TestArea(7, 27))| == 2
  {
    ExampleTests();
    FiveRows(CrossTest(EXAMPLE, TestArea(7, 27)));
    assert |EXAMPLE| == 5;
  }

  // ---------------------------------------------------------------------------------------
  // Parsing

  /** `str::parse::<i64>`. */
  function I64Of(s: String): (r: Result<int>)
    ensures r.Ok? ==> InI64(r.value)
  {
    match ParseSigned(s, I64_MIN, I64_LIMIT)
    case None => Err
    case Some(v) => Ok(v)
  }

  /** The point of two parsed coordinates, or `Err` when either failed. */
  function PointFromValues(x: Result<int>, y: Result<int>): (r: Result<Point>)
    ensures r.Ok? <==> x.Ok? && y.Ok?
    ensures r.Ok? ==> r.value == Point(x.value, y.value)
  {
    match (x, y)
    case (Ok(x), Ok(y)) => Ok(Point(x, y))
    case _ => Err
  }

  /** `Point2D::from_str`: the text split at ", " into two or three fields, each trimmed; the
      first two are the coordinates, a third is ignored and a fourth is an error. */
  function PointOf(text: String): (r: Result<Point>)
    ensures r.Ok? ==> 2 <= |Split(text, ", ")| <= 3 && InI64(r.value.x) && InI64(r.value.y)
  {
    var parts := Split(text, ", ");
    if |parts| < 2 || |parts| > 3 then Err
    else PointFromValues(I64Of(Trim(parts[0])), I64Of(Trim(parts[1])))
  }

  /** The loop of `Point2D::from_str`: each field's value goes to `x`, `y` or nowhere by its
      position, and a fourth field stops it with an error. */
  method PointFromStr(text: String) returns (r: Result<Point>)
    ensures r == PointOf(text)
  {
    var parts := Split(text, ", ");
    var x: Result<int> := Err;
    var y: Result<int> := Err;
    for pos := 0 to |parts|
      invariant pos <= 3
      invariant x == (if pos > 0 then I64Of(Trim(parts[0])) else Err)
      invariant y == (if pos > 1 then I64Of(Trim(parts[1])) else Err)
    {
      var value := I64Of(Trim(parts[pos]));
      if pos == 0 {
        x := value;
      } else if pos == 1 {
        y := value;
      } else if pos == 2 {
      } else {
        return Err;
      }
    }
    r := PointFromValues(x, y);
  }

  /** Fields free of commas: two or three make a point of the first two, any other number
      of fields is an error. */
  lemma PointFields(fields: seq<String>)
    requires |fields| > 0 && forall k :: 0 <= k < |fields| ==> ',' !in fields[k]
    ensures PointOf(Join(fields, ", "))
            == if 2 <= |fields| <= 3 then PointFromValues(I64Of(Trim(fields[0])), I64Of(Trim(fields[1]))) else Err
  {
    SplitJoin(fields, ", ");
  }

  /** `Hailstone2D::from_str`: a position and a velocity on either side of " @ ". */
  function HailstoneOf(text: String): (r: Result<Hailstone>)
    ensures r.Ok? ==> SplitOnce(text, " @ ").Some?
  {
    match SplitOnce(text, " @ ")
    case None => Err
    case Some((position, velocity)) =>
      match (PointOf(position), PointOf(velocity))
      case (Ok(p), Ok(v)) => Ok(Hailstone(p, v))
      case _ => Err
  }

  method HailstoneFromStr(text: String) returns (r: Result<Hailstone>)
    ensures r == HailstoneOf(text)
  {
    var halves := SplitOnce(text, " @ ");
    if halves.None? {
      return Err;
    }
    var position := PointFromStr(halves.value.0);
    if position.Err? {
      return Err;
    }
    var velocity := PointFromStr(halves.value.1);
    if velocity.Err? {
      return Err;
    }
    r := Ok(Hailstone(position.value, velocity.value));
  }

  /** A point written as its coordinates with ", " between them. */
  function PointText(p: Point): String
  {
    SignedDecimal(p.x) + ", " + SignedDecimal(p.y)
  }

  function HailstoneText(h: Hailstone): String
  {
    PointText(h.position) + " @ " + PointText(h.velocity)
  }

  /** A signed decimal is a '-' or digits, and ends in a digit. */
  lemma DecimalCharacters(n: int)
    ensures var s := SignedDecimal(n);
            (forall k :: 0 <= k < |s| ==> s[k] == '-' || IsDigit(s[k])) && IsDigit(s[|s| - 1])
  {
    DecimalRoundTrip(Abs(n));
    var s := SignedDecimal(n);
    if n < 0 {
      forall k | 1 <= k < |s| ensures IsDigit(s[k]) {
        assert s[k] == Decimal(-n)[k - 1];
      }
    }
  }

  lemma DecimalTrimmed(n: int)
    requires InI64(n)
    ensures Trim(SignedDecimal(n)) == SignedDecimal(n) && I64Of(SignedDecimal(n)) == Ok(n)
    ensures ',' !in SignedDecimal(n) && '@' !in SignedDecimal(n)
  {
    var s := SignedDecimal(n);
    DecimalCharacters(n);
    assert ',' !in s && '@' !in s;
    assert [] + s == s;
    TrimPadded([], s);
    SignedDecimalRoundTrip(n, I64_MIN, I64_LIMIT);
  }

  /** Two comma-free fields that parse, with ", " between them, make a point. */
  lemma TwoFields(sx: String, sy: String, x: int, y: int)
    requires ',' !in sx && ',' !in sy
    requires I64Of(Trim(sx)) == Ok(x) && I64Of(Trim(sy)) == Ok(y)
    ensures PointOf(sx + ", " + sy) == Ok(Point(x, y))
  {
    var fields := [sx, sy];
    assert Join(fields, ", ") == sx + ", " + sy by {
      assert fields[1..] == [sy];
    }
    PointFields(fields);
  }

  /** A point written out with `i64` coordinates parses back to itself. */
  lemma PointRoundTrip(p: Point)
    requires InI64(p.x) && InI64(p.y)
    ensures PointOf(PointText(p)) == Ok(p)
    ensures '@' !in PointText(p)
  {
    var (sx, sy) := (SignedDecimal(p.x), SignedDecimal(p.y));
    assert PointText(p) == sx + ", " + sy;
    assert PointOf(sx + ", " + sy) == Ok(Point(p.x, p.y)) by {
      DecimalTrimmed(p.x);
      DecimalTrimmed(p.y);
      TwoFields(sx, sy, p.x, p.y);
    }
    assert '@' !in sx + ", " + sy by {
      DecimalTrimmed(p.x);
      DecimalTrimmed(p.y);
      NoAtJoined(sx, sy);
    }
  }

  lemma NoAtJoined(sx: String, sy: String)
    requires '@' !in sx && '@' !in sy
    ensures '@' !in sx + ", " + sy
  {
  }

  /** A hailstone written out with `i64` coordinates parses back to itself. */
  lemma HailstoneRoundTrip(h: Hailstone)
    requires InI64(h.position.x) && InI64(h.position.y) && InI64(h.velocity.x) && InI64(h.velocity.y)
    ensures HailstoneOf(HailstoneText(h)) == Ok(h)
  {
    PointRoundTrip(h.position);
    PointRoundTrip(h.velocity);
    TwoHalves(PointText(h.position), PointText(h.velocity), h);
  }

  /** A position and a velocity text that parse, with " @ " between them, make a hailstone. */
  lemma TwoHalves(position: String, velocity: String, h: Hailstone)
    requires '@' !in position && PointOf(position) == Ok(h.position) && PointOf(velocity) == Ok(h.velocity)
    ensures HailstoneOf(position + " @ " + velocity) == Ok(h)
  {
    SplitAtSeparator(position, velocity, " @ ");
    assert SplitOnce(position + " @ " + velocity, " @ ") == Some((position, velocity));
  }

  lemma SplitAtSeparator(position: String, velocity: String, sep: String)
    requires sep == " @ " && '@' !in position
    ensures SplitOnce(position + sep + velocity, sep) == Some((position, velocity))
  {
    assert |sep| == 3 && sep[0] == ' ' && sep[1] == '@';
    FindAfterSecond(position, sep, velocity);
  }

  /** `read_hailstones_2d`: one hailstone per line, or `Err` at the first line that fails. */
  method ReadHailstones(input: String) returns (r: Result<seq<Hailstone>>)
    ensures r == ParseEach(HailstoneOf, Lines(input))
  {
    var lines := Lines(input);
    var hailstones := [];
    for i := 0 to |lines|
      invariant ParseEach(HailstoneOf, lines[..i]) == Ok(hailstones)
    {
      var hailstone := HailstoneFromStr(lines[i]);
      if hailstone.Err? {
        ParseEachFails(HailstoneOf, lines, i);
        return Err;
      }
      ParseEachExtend(HailstoneOf, lines, i, hailstone.value);
      hailstones := hailstones + [hailstone.value];
    }
    assert lines[..|lines|] == lines;
    r := Ok(hailstones);
  }

  const PART_ONE_AREA := TestArea(200_000_000_000_000, 400_000_000_000_000)

  /** `part_one`: `None` when a line does not parse, otherwise the number of pairs whose
      future crossing lies in the test area. */
  method PartOne(input: String) returns (r: Option<nat>)
    requires ParseEach(HailstoneOf, Lines(input)).Ok? ==> AllFit(ParseEach(HailstoneOf, Lines(input)).value)
    ensures r.None? <==> ParseEach(HailstoneOf, Lines(input)).Err?
    ensures r.Some? ==> r.value == |CrossingPairs(ParseEach(HailstoneOf, Lines(input)).value, PART_ONE_AREA)|
  {
    var hailstones := ReadHailstones(input);
    if hailstones.Err? {
      return None;
    }
    var count := IntersectingPairsInArea(hailstones.value, PART_ONE_AREA);
    r := Some(count);
  }
}
