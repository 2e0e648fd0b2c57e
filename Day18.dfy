/** Day 18: the lava lagoon. The dig plan's instructions walk a closed rectilinear loop
    from the origin; the lagoon holds the loop's shoelace area plus half its perimeter
    plus one cubic metre. */
module Day18 {
  import opened Wrappers
  import opened Text
  import opened Divisibility

  datatype Direction = Up | Right | Down | Left

  datatype Instruction = Instruction(direction: Direction, distance: int)

  datatype Point = Point(x: int, y: int)

  const Origin := Point(0, 0)

  // ---------------------------------------------------------------------------------------
  // Points and moves

  /** `Point::distance`: the Manhattan distance. */
  function Distance(p: Point, q: Point): (d: nat)
    ensures d == 0 <==> p == q
  {
    Abs(p.x - q.x) + Abs(p.y - q.y)
  }

  lemma DistanceSymmetric(p: Point, q: Point)
    ensures Distance(p, q) == Distance(q, p)
  {
  }

  lemma DistanceTriangle(p: Point, q: Point, r: Point)
    ensures Distance(p, r) <= Distance(p, q) + Distance(q, r)
  {
  }

  /** `Point + Instruction`: `distance` along one axis, with up decreasing `y`. */
  function Move(p: Point, i: Instruction): Point
  {
    match i.direction
    case Up => Point(p.x, p.y - i.distance)
    case Right => Point(p.x + i.distance, p.y)
    case Down => Point(p.x, p.y + i.distance)
    case Left => Point(p.x - i.distance, p.y)
  }

  function Opposite(d: Direction): Direction
  {
    match d
    case Up => Down
    case Right => Left
    case Down => Up
    case Left => Right
  }

  /** A move covers exactly its distance, along one axis. */
  lemma MoveDistance(p: Point, i: Instruction)
    ensures Distance(p, Move(p, i)) == Abs(i.distance)
    ensures Move(p, i).x == p.x || Move(p, i).y == p.y
  {
  }

  /** A move is undone by the same distance in the opposite direction, or by the negated
      distance in the same direction. */
  lemma MoveUndo(p: Point, i: Instruction)
    ensures Move(Move(p, i), Instruction(Opposite(i.direction), i.distance)) == p
    ensures Move(Move(p, i), Instruction(i.direction, -i.distance)) == p
  {
  }

  // ---------------------------------------------------------------------------------------
  // The loop

  /** Where the instructions lead from the origin. */
  function End(ins: seq<Instruction>): Point
  {
    if ins == [] then Origin else Move(End(ins[..|ins| - 1]), ins[|ins| - 1])
  }

  /** The point reached after each instruction in turn. */
  function Walk(ins: seq<Instruction>): (points: seq<Point>)
    ensures |points| == |ins|
    ensures ins != [] ==> points[|ins| - 1] == End(ins)
  {
    if ins == [] then [] else Walk(ins[..|ins| - 1]) + [End(ins)]
  }

  /** The point before point `i` of a walk: the previous one, or the origin. */
  function Before(points: seq<Point>, i: nat): Point
    requires i < |points|
  {
    if i == 0 then Origin else points[i - 1]
  }

  /** Each point of the walk is its instruction applied to the point before it. */
  lemma {:induction false} WalkSteps(ins: seq<Instruction>, i: nat)
    requires i < |ins|
    ensures Walk(ins)[i] == Move(Before(Walk(ins), i), ins[i])
    decreases |ins|
  {
    var init := ins[..|ins| - 1];
    if i < |init| {
      WalkSteps(init, i);
      assert init[i] == ins[i];
      if i > 0 {
        assert Walk(ins)[i - 1] == Walk(init)[i - 1];
      }
    } else if i > 0 {
      assert Walk(ins)[i - 1] == End(init);
    }
  }

  datatype Polygon = Polygon(points: seq<Point>)

  /** `Polygon::from_instructions`: the point after each instruction, and an error unless
      the last one is back at the origin. */
  method FromInstructions(ins: seq<Instruction>) returns (r: Result<Polygon>)
    ensures r.Ok? <==> End(ins) == Origin
    ensures r.Ok? ==> r.value.points == Walk(ins)
  {
    var points := [];
    var point := Origin;
    for i := 0 to |ins|
      invariant point == End(ins[..i]) && points == Walk(ins[..i])
    {
      assert ins[..i + 1][..i] == ins[..i];
      point := Move(point, ins[i]);
      points := points + [point];
    }
    assert ins[..|ins|] == ins;
    if point == Origin {
      r := Ok(Polygon(points));
    } else {
      r := Err;
    }
  }

  // ---------------------------------------------------------------------------------------
  // Area

  /** The point after point `i`, wrapping round to the first. */
  function Next(points: seq<Point>, i: nat): Point
    requires i < |points|
  {
    if i + 1 < |points| then points[i + 1] else points[0]
  }

  /** `Next` is the source's `points[(ix + 1) % points.len()]`. */
  lemma NextModulo(points: seq<Point>, i: nat)
    requires i < |points|
    ensures Next(points, i) == points[(i + 1) % |points|]
  {
    if i + 1 < |points| {
      ModUnique(i + 1, |points|, 0, i + 1);
    } else {
      ModUnique(i + 1, |points|, 1, 0);
    }
  }

  /** The fold of `area` over the first `k` points: the sums of `x * next.y` ... */
  function SumXY(points: seq<Point>, k: nat): int
    requires k <= |points|
  {
    if k == 0 then 0 else SumXY(points, k - 1) + points[k - 1].x * Next(points, k - 1).y
  }

  /** ... and of `y * next.x`. */
  function SumYX(points: seq<Point>, k: nat): int
    requires k <= |points|
  {
    if k == 0 then 0 else SumYX(points, k - 1) + points[k - 1].y * Next(points, k - 1).x
  }

  /** `Polygon::area`: half the absolute difference of the two sums, rounded down. */
  function Area(poly: Polygon): nat
  {
    Abs(SumXY(poly.points, |poly.points|) - SumYX(poly.points, |poly.points|)) / 2
  }

  /** The cross product of two points as vectors from the origin. */
  function Cross(p: Point, q: Point): int { p.x * q.y - p.y * q.x }

  lemma CrossSwap(p: Point, q: Point)
    ensures Cross(q, p) == -Cross(p, q)
  {
  }

  /** The edge from point `i` to the next one, as a term of the shoelace sum. */
  function Edge(points: seq<Point>, i: nat): int
    requires i < |points|
  {
    Cross(points[i], Next(points, i))
  }

  /** The shoelace sum of the edges from the first `k` points: the reference definition of
      twice the signed area. */
  function Shoelace(points: seq<Point>, k: nat): int
    requires k <= |points|
  {
    if k == 0 then 0 else Shoelace(points, k - 1) + Edge(points, k - 1)
  }

  /** The two sums of `area` differ by the shoelace sum. */
  lemma {:induction false} SumsAreShoelace(points: seq<Point>, k: nat)
    requires k <= |points|
    ensures SumXY(points, k) - SumYX(points, k) == Shoelace(points, k)
  {
    if k > 0 {
      SumsAreShoelace(points, k - 1);
    }
  }

  /** The area is half the absolute shoelace sum. */
  lemma AreaIsShoelace(poly: Polygon)
    ensures Area(poly) == Abs(Shoelace(poly.points, |poly.points|)) / 2
  {
    SumsAreShoelace(poly.points, |poly.points|);
  }

  /** The points starting from the second one, the first moved to the end. */
  function Rotate(points: seq<Point>): (r: seq<Point>)
    requires points != []
    ensures |r| == |points|
  {
    points[1..] + [points[0]]
  }

  /** Each edge of the rotated list is the following edge of the original. */
  lemma RotateEdge(points: seq<Point>, i: nat)
    requires i < |points|
    ensures i + 1 < |points| ==> Edge(Rotate(points), i) == Edge(points, i + 1)
    ensures i + 1 == |points| ==> Edge(Rotate(points), i) == Edge(points, 0)
  {
    var n := |points|;
    var rot := Rotate(points);
    if i + 1 < n {
      assert rot[i] == points[i + 1];
      assert Next(rot, i) == Next(points, i + 1);
    } else {
      assert rot[i] == points[0];
      assert Next(rot, i) == Next(points, 0);
    }
  }

  lemma {:induction false} RotatePrefix(points: seq<Point>, k: nat)
    requires k < |points|
    ensures Shoelace(Rotate(points), k) == Shoelace(points, k + 1) - Edge(points, 0)
  {
    if k > 0 {
      RotatePrefix(points, k - 1);
      RotateEdge(points, k - 1);
    }
  }

  /** The area does not depend on which corner the list starts at. */
  lemma RotateArea(points: seq<Point>)
    requires points != []
    ensures Area(Polygon(Rotate(points))) == Area(Polygon(points))
  {
    var n := |points|;
    RotatePrefix(points, n - 1);
    RotateEdge(points, n - 1);
    AreaIsShoelace(Polygon(points));
    AreaIsShoelace(Polygon(Rotate(points)));
  }

  function Reverse(points: seq<Point>): (r: seq<Point>)
    ensures |r| == |points|
  {
    seq(|points|, i requires 0 <= i < |points| => points[|points| - 1 - i])
  }

  /** Each edge of the reversed list is an edge of the original, traversed backwards. */
  lemma ReverseEdge(points: seq<Point>, i: nat)
    requires i < |points|
    ensures i + 1 < |points| ==> Edge(Reverse(points), i) == -Edge(points, |points| - 2 - i)
    ensures i + 1 == |points| ==> Edge(Reverse(points), i) == -Edge(points, i)
  {
    var n := |points|;
    var rev := Reverse(points);
    if i + 1 < n {
      assert rev[i] == Next(points, n - 2 - i);
      assert Next(rev, i) == points[n - 2 - i];
      CrossSwap(points[n - 2 - i], Next(points, n - 2 - i));
    } else {
      assert rev[i] == Next(points, i);
      assert Next(rev, i) == points[i];
      CrossSwap(points[i], Next(points, i));
    }
  }

  lemma {:induction false} ReversePrefix(points: seq<Point>, k: nat)
    requires k < |points|
    ensures Shoelace(Reverse(points), k) == Shoelace(points, |points| - 1 - k) - Shoelace(points, |points| - 1)
  {
    if k > 0 {
      ReversePrefix(points, k - 1);
      ReverseEdge(points, k - 1);
    }
  }

  /** The area does not depend on which way round the loop is listed. */
  lemma ReverseArea(points: seq<Point>)
    ensures Area(Polygon(Reverse(points))) == Area(Polygon(points))
  {
    var n := |points|;
    if n > 0 {
      ReversePrefix(points, n - 1);
      ReverseEdge(points, n - 1);
      AreaIsShoelace(Polygon(points));
      AreaIsShoelace(Polygon(Reverse(points)));
    }
  }

  // ---------------------------------------------------------------------------------------
  // Perimeter

  /** The fold of `circumference` over the first `k` points: each point's distance from the
      one before it, starting from the origin. */
  function Perimeter(points: seq<Point>, k: nat): nat
    requires k <= |points|
  {
    if k == 0 then 0 else Perimeter(points, k - 1) + Distance(points[k - 1], Before(points, k - 1))
  }

  /** `Polygon::circumference`. */
  function Circumference(poly: Polygon): nat
  {
    Perimeter(poly.points, |poly.points|)
  }

  /** The sum of the instructions' distances. */
  function Length(ins: seq<Instruction>): nat
  {
    if ins == [] then 0 else Length(ins[..|ins| - 1]) + Abs(ins[|ins| - 1].distance)
  }

  /** The walk's perimeter is the distance its instructions cover. */
  lemma {:induction false} WalkPerimeter(ins: seq<Instruction>, k: nat)
    requires k <= |ins|
    ensures Perimeter(Walk(ins), k) == Length(ins[..k])
  {
    if k > 0 {
      WalkPerimeter(ins, k - 1);
      WalkSteps(ins, k - 1);
      MoveDistance(Before(Walk(ins), k - 1), ins[k - 1]);
      DistanceSymmetric(Walk(ins)[k - 1], Before(Walk(ins), k - 1));
      assert ins[..k][..k - 1] == ins[..k - 1];
    }
  }

  /** The distance covered and the coordinates of the end have the same parity. */
  lemma {:induction false} LengthParity(ins: seq<Instruction>)
    ensures (Length(ins) - End(ins).x - End(ins).y) % 2 == 0
  {
    if ins != [] {
      var init := ins[..|ins| - 1];
      LengthParity(init);
      var p, d := End(init), ins[|ins| - 1].distance;
      var q := Move(p, ins[|ins| - 1]);
      assert q.x + q.y == p.x + p.y + d || q.x + q.y == p.x + p.y - d;
      assert Abs(d) - d == 0 || Abs(d) - d == -2 * d;
      assert Abs(d) + d == 0 || Abs(d) + d == 2 * d;
    }
  }

  /** A closed loop's perimeter is even, so halving it in `area_including_circumference`
      loses nothing. */
  lemma ClosedPerimeterEven(ins: seq<Instruction>)
    requires End(ins) == Origin
    ensures Circumference(Polygon(Walk(ins))) == Length(ins)
    ensures Circumference(Polygon(Walk(ins))) % 2 == 0
  {
    WalkPerimeter(ins, |ins|);
    assert ins[..|ins|] == ins;
    LengthParity(ins);
  }

  /** `Polygon::area_including_circumference`: the interior by the shoelace formula, plus
      the trench itself, which by Pick's theorem adds half the perimeter plus one. */
  function AreaIncludingCircumference(poly: Polygon): nat
  {
    Area(poly) + (Circumference(poly) / 2 + 1)
  }

  /** A `w` by `h` rectangle dug clockwise from the origin holds `(w + 1) * (h + 1)` cubic
      metres: every cell of its closed grid. */
  lemma RectangleLagoon(w: nat, h: nat)
    ensures var ins := [Instruction(Right, w), Instruction(Down, h), Instruction(Left, w), Instruction(Up, h)];
            End(ins) == Origin && AreaIncludingCircumference(Polygon(Walk(ins))) == (w + 1) * (h + 1)
  {
    RectangleWalk(w, h);
    RectangleSums([Point(w, 0), Point(w, h), Point(0, h), Origin], w, h);
    assert (w + 1) * (h + 1) == w * h + w + h + 1;
  }

  lemma RectangleSums(points: seq<Point>, w: nat, h: nat)
    requires points == [Point(w, 0), Point(w, h), Point(0, h), Origin]
    ensures Area(Polygon(points)) == w * h && Circumference(Polygon(points)) == 2 * (w + h)
  {
    assert SumXY(points, 1) == w * h && SumYX(points, 1) == 0 && Perimeter(points, 1) == w;
    assert SumXY(points, 2) == w * h + w * h && SumYX(points, 2) == 0 && Perimeter(points, 2) == w + h;
    assert SumXY(points, 3) == w * h + w * h && SumYX(points, 3) == 0 && Perimeter(points, 3) == w + h + w;
    assert SumXY(points, 4) == w * h + w * h && SumYX(points, 4) == 0 && Perimeter(points, 4) == 2 * (w + h);
    var area := w * h;
    assert (area + area) / 2 == area;
  }

  lemma RectangleWalk(w: nat, h: nat)
    ensures var ins := [Instruction(Right, w), Instruction(Down, h), Instruction(Left, w), Instruction(Up, h)];
            Walk(ins) == [Point(w, 0), Point(w, h), Point(0, h), Origin] && End(ins) == Origin
  {
    var ins := [Instruction(Right, w), Instruction(Down, h), Instruction(Left, w), Instruction(Up, h)];
    WalkSteps(ins, 0);
    WalkSteps(ins, 1);
    WalkSteps(ins, 2);
    WalkSteps(ins, 3);
  }

  // ---------------------------------------------------------------------------------------
  // The worked example

  function ExampleInstructions(): seq<Instruction>
  {
    [Instruction(Right, 6), Instruction(Down, 5), Instruction(Left, 2), Instruction(Down, 2),
     Instruction(Right, 2), Instruction(Down, 2), Instruction(Left, 5), Instruction(Up, 2),
     Instruction(Left, 1), Instruction(Up, 2), Instruction(Right, 2), Instruction(Up, 3),
     Instruction(Left, 2), Instruction(Up, 2)]
  }

  function ExamplePoints(): seq<Point>
  {
    [Point(6, 0), Point(6, 5), Point(4, 5), Point(4, 7), Point(6, 7), Point(6, 9), Point(1, 9),
     Point(1, 7), Point(0, 7), Point(0, 5), Point(2, 5), Point(2, 2), Point(0, 2), Point(0, 0)]
  }

  /** The example plan walks the example loop back to the origin. */
  lemma ExampleWalk()
    ensures Walk(ExampleInstructions()) == ExamplePoints()
    ensures End(ExampleInstructions()) == Origin
  {
    var ins, pts := ExampleInstructions(), ExamplePoints();
    forall i | 0 <= i < |ins|
      ensures Walk(ins)[i] == pts[i]
    {
      var k := 0;
      while k <= i
        invariant k <= i + 1
        invariant forall j :: 0 <= j < k ==> Walk(ins)[j] == pts[j]
      {
        WalkSteps(ins, k);
        k := k + 1;
      }
    }
  }

  /** The example lagoon holds 62 cubic metres. */
  lemma ExampleLagoon()
    ensures AreaIncludingCircumference(Polygon(ExamplePoints())) == 62
  {
    ExampleLength(ExampleInstructions());
    ExampleShoelace(ExamplePoints());
    ExampleWalk();
    ClosedPerimeterEven(ExampleInstructions());
  }

  lemma ExampleShoelace(pts: seq<Point>)
    requires |pts| == 14
    requires pts[0] == Point(6, 0)
    requires pts[1] == Point(6, 5)
    requires pts[2] == Point(4, 5)
    requires pts[3] == Point(4, 7)
    requires pts[4] == Point(6, 7)
    requires pts[5] == Point(6, 9)
    requires pts[6] == Point(1, 9)
    requires pts[7] == Point(1, 7)
    requires pts[8] == Point(0, 7)
    requires pts[9] == Point(0, 5)
    requires pts[10] == Point(2, 5)
    requires pts[11] == Point(2, 2)
    requires pts[12] == Point(0, 2)
    requires pts[13] == Point(0, 0)
    ensures SumXY(pts, 14) == 246 && SumYX(pts, 14) == 162
  {
    assert SumXY(pts, 1) == 30 && SumYX(pts, 1) == 0;
    assert SumXY(pts, 2) == 60 && SumYX(pts, 2) == 20;
    assert SumXY(pts, 3) == 88 && SumYX(pts, 3) == 40;
    assert SumXY(pts, 4) == 116 && SumYX(pts, 4) == 82;
    assert SumXY(pts, 5) == 170 && SumYX(pts, 5) == 124;
    assert SumXY(pts, 6) == 224 && SumYX(pts, 6) == 133;
    assert SumXY(pts, 7) == 231 && SumYX(pts, 7) == 142;
    assert SumXY(pts, 8) == 238 && SumYX(pts, 8) == 142;
    assert SumXY(pts, 9) == 238 && SumYX(pts, 9) == 142;
    assert SumXY(pts, 10) == 238 && SumYX(pts, 10) == 152;
    assert SumXY(pts, 11) == 242 && SumYX(pts, 11) == 162;
    assert SumXY(pts, 12) == 246 && SumYX(pts, 12) == 162;
    assert SumXY(pts, 13) == 246 && SumYX(pts, 13) == 162;
    assert SumXY(pts, 14) == 246 && SumYX(pts, 14) == 162;
  }

  /** One more instruction adds its distance to the length. */
  lemma LengthStep(ins: seq<Instruction>, k: nat, v: nat)
    requires 0 < k <= |ins| && Length(ins[..k - 1]) == v
    ensures Length(ins[..k]) == v + Abs(ins[k - 1].distance)
  {
    assert ins[..k][..k - 1] == ins[..k - 1];
  }

  lemma ExampleLength(ins: seq<Instruction>)
    requires |ins| == 14
    requires Abs(ins[0].distance) == 6
    requires Abs(ins[1].distance) == 5
    requires Abs(ins[2].distance) == 2
    requires Abs(ins[3].distance) == 2
    requires Abs(ins[4].distance) == 2
    requires Abs(ins[5].distance) == 2
    requires Abs(ins[6].distance) == 5
    requires Abs(ins[7].distance) == 2
    requires Abs(ins[8].distance) == 1
    requires Abs(ins[9].distance) == 2
    requires Abs(ins[10].distance) == 2
    requires Abs(ins[11].distance) == 3
    requires Abs(ins[12].distance) == 2
    requires Abs(ins[13].distance) == 2
    ensures Length(ins) == 38
  {
    LengthStep(ins, 1, 0);
    LengthStep(ins, 2, 6);
    LengthStep(ins, 3, 11);
    LengthStep(ins, 4, 13);
    LengthStep(ins, 5, 15);
    LengthStep(ins, 6, 17);
    LengthStep(ins, 7, 19);
    LengthStep(ins, 8, 24);
    LengthStep(ins, 9, 26);
    LengthStep(ins, 10, 27);
    LengthStep(ins, 11, 29);
    LengthStep(ins, 12, 31);
    LengthStep(ins, 13, 34);
    LengthStep(ins, 14, 36);
    assert ins[..14] == ins;
  }

  // ---------------------------------------------------------------------------------------
  // Parsing

  /** `Direction::from_str`: the first character, which must be U, R, D or L. */
  function DirectionOf(part: String): (r: Result<Direction>)
    ensures r.Ok? <==> |part| > 0 && part[0] in "URDL"
  {
    if |part| == 0 then Err
    else if part[0] == 'U' then Ok(Up)
    else if part[0] == 'R' then Ok(Right)
    else if part[0] == 'D' then Ok(Down)
    else if part[0] == 'L' then Ok(Left)
    else Err
  }

  function DirectionChar(d: Direction): char
  {
    match d
    case Up => 'U'
    case Right => 'R'
    case Down => 'D'
    case Left => 'L'
  }

  /** Only the first character counts: any word starting with a direction's letter gives it. */
  lemma DirectionRoundTrip(d: Direction, rest: String)
    ensures DirectionOf([DirectionChar(d)] + rest) == Ok(d)
  {
  }

  /** `Instruction::from_str`: the direction from the first word, an `i32` distance from
      the second, a third word ignored, and an error for a fourth word or a missing one. */
  function InstructionOf(line: String): (r: Result<Instruction>)
    ensures var words := SplitWhitespace(line);
            r.Ok? <==> 2 <= |words| <= 3 && DirectionOf(words[0]).Ok?
                       && ParseSigned(words[1], I32_MIN, I32_LIMIT).Some?
    ensures r.Ok? ==> I32_MIN <= r.value.distance < I32_LIMIT
  {
    var words := SplitWhitespace(line);
    if |words| < 2 || |words| > 3 then Err
    else match DirectionOf(words[0])
      case Err => Err
      case Ok(direction) =>
        match ParseSigned(words[1], I32_MIN, I32_LIMIT)
        case None => Err
        case Some(distance) => Ok(Instruction(direction, distance))
  }

  /** The imperative parser: each word by its index, stopping at a fourth. */
  method ParseInstruction(line: String) returns (r: Result<Instruction>)
    ensures r == InstructionOf(line)
  {
    var words := SplitWhitespace(line);
    var direction: Result<Direction> := Err;
    var distance: Result<int> := Err;
    for ix := 0 to |words|
      invariant ix <= 3
      invariant direction == if ix > 0 then DirectionOf(words[0]) else Err
      invariant distance == if ix > 1 then (match ParseSigned(words[1], I32_MIN, I32_LIMIT)
                                              case Some(v) => Ok(v) case None => Err) else Err
    {
      if ix == 0 {
        direction := DirectionOf(words[ix]);
      } else if ix == 1 {
        var parsed := ParseSigned(words[ix], I32_MIN, I32_LIMIT);
        distance := if parsed.Some? then Ok(parsed.value) else Err;
      } else if ix == 2 {
      } else {
        return Err;
      }
    }
    if direction.Err? || distance.Err? {
      return Err;
    }
    r := Ok(Instruction(direction.value, distance.value));
  }

  /** The text of an instruction: its letter, its distance and a colour word. */
  function InstructionText(i: Instruction, colour: String): String
  {
    [DirectionChar(i.direction)] + " " + SignedDecimal(i.distance) + " " + colour
  }

  /** Any instruction with an `i32` distance, written out with any colour word, parses back. */
  lemma InstructionRoundTrip(i: Instruction, colour: String)
    requires I32_MIN <= i.distance < I32_LIMIT
    requires |colour| > 0 && forall k :: 0 <= k < |colour| ==> !IsWhitespace(colour[k])
    ensures InstructionOf(InstructionText(i, colour)) == Ok(i)
  {
    var words := [[DirectionChar(i.direction)], SignedDecimal(i.distance), colour];
    var digits := SignedDecimal(i.distance);
    assert forall k :: 0 <= k < |digits| ==> digits[k] == '-' || IsDigit(digits[k]) by {
      if i.distance < 0 {
        assert digits == "-" + Decimal(-i.distance);
      }
    }
    assert Join(words, " ") == InstructionText(i, colour) by {
      assert Join(words[2..], " ") == colour;
      assert Join(words[1..], " ") == digits + " " + colour;
    }
    SplitWhitespaceJoin(words);
    SignedDecimalRoundTrip(i.distance, I32_MIN, I32_LIMIT);
  }

  /** The example's first line. */
  lemma FirstExampleLine(line: String, colour: String)
    requires colour == "(#70c710)" && line == "R 6 " + colour
    ensures InstructionOf(line) == Ok(Instruction(Right, 6))
  {
    assert Decimal(6) == "6";
    assert line == InstructionText(Instruction(Right, 6), colour);
    InstructionRoundTrip(Instruction(Right, 6), colour);
  }

  /** The example's last line. */
  lemma LastExampleLine(line: String, colour: String)
    requires colour == "(#caa171)" && line == "U 2 " + colour
    ensures InstructionOf(line) == Ok(Instruction(Up, 2))
  {
    assert Decimal(2) == "2";
    assert line == InstructionText(Instruction(Up, 2), colour);
    InstructionRoundTrip(Instruction(Up, 2), colour);
  }

  // ---------------------------------------------------------------------------------------
  // Part one

  /** `part_one`'s loop: every line parsed, giving up at the first bad one. */
  method ReadInstructions(input: String) returns (r: Result<seq<Instruction>>)
    ensures r == ParseEach(InstructionOf, Lines(input))
  {
    var lines := Lines(input);
    var ins := [];
    for i := 0 to |lines|
      invariant ParseEach(InstructionOf, lines[..i]) == Ok(ins)
    {
      var instruction := ParseInstruction(lines[i]);
      if instruction.Err? {
        ParseEachFails(InstructionOf, lines, i);
        return Err;
      }
      ParseEachExtend(InstructionOf, lines, i, instruction.value);
      ins := ins + [instruction.value];
    }
    assert lines[..|lines|] == lines;
    r := Ok(ins);
  }

  /** `part_one`: the cubic metres of the lagoon the plan digs, or nothing when a line does
      not parse or the plan does not close. */
  method PartOne(input: String) returns (r: Option<nat>)
    ensures r.Some? <==> ParseEach(InstructionOf, Lines(input)).Ok? && End(ParseEach(InstructionOf, Lines(input)).value) == Origin
    ensures r.Some? ==> var ins := ParseEach(InstructionOf, Lines(input)).value;
                        r.value == Area(Polygon(Walk(ins))) + Length(ins) / 2 + 1
  {
    var ins := ReadInstructions(input);
    if ins.Err? {
      return None;
    }
    var polygon := FromInstructions(ins.value);
    if polygon.Err? {
      return None;
    }
    ClosedPerimeterEven(ins.value);
    r := Some(AreaIncludingCircumference(polygon.value));
  }
}
