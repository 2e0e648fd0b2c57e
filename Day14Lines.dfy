/** Parabolic Reflector Dish (`src/bin/14.rs`), the rolling of one line.

    Every roll of the dish treats the grid as 100 independent lines (the columns for north and
    south, the rows for west and east). Along one line the rounded rocks slide towards one end
    until they meet a cube rock, another rounded rock or the edge; cube rocks stay put. Here a
    line tilted towards its start is specified segment by segment: the stretch up to the first
    cube rock gets all its rounded rocks packed at its start, and the rest is tilted the same
    way. The loops of `roll_*` build the same line one cell at a time, and `TiltSnoc` is the
    step that connects the two. */
module Day14Lines {
  datatype Rock = Empty | Rounded | Cube

  /** The number of rocks of kind `k` among `s[lo..hi]`. */
  function CountIn(s: seq<Rock>, lo: nat, hi: nat, k: Rock): (n: nat)
    requires lo <= hi <= |s|
    ensures n <= hi - lo
    decreases hi - lo
  {
    if lo == hi then 0 else CountIn(s, lo, hi - 1, k) + (if s[hi - 1] == k then 1 else 0)
  }

  /** The number of rocks of kind `k` in `s`. */
  function Count(s: seq<Rock>, k: Rock): nat
  {
    CountIn(s, 0, |s|, k)
  }

  /** `n` empty cells. */
  function Empties(n: nat): (s: seq<Rock>)
    ensures |s| == n && forall i :: 0 <= i < n ==> s[i] == Empty
  {
    seq(n, _ => Empty)
  }

  /** The index of the first cube rock at or after `i`, or the length when there is none. */
  function CubeFrom(s: seq<Rock>, i: nat): (j: nat)
    requires i <= |s|
    ensures i <= j <= |s|
    ensures j < |s| ==> s[j] == Cube
    decreases |s| - i
  {
    if i == |s| then i
    else if s[i] == Cube then i
    else CubeFrom(s, i + 1)
  }

  /** `c` rounded rocks at the start of `n` cells, the rest empty. */
  function Packed(c: nat, n: nat): (s: seq<Rock>)
    requires c <= n
    ensures |s| == n
  {
    seq(n, i => if i < c then Rounded else Empty)
  }

  /** `s[i..]` after tilting it towards its start: the stretch up to the next cube rock gets
      its rounded rocks packed at its start, the cube rock stays, and the rest is tilted the
      same way. */
  function TiltFrom(s: seq<Rock>, i: nat): (r: seq<Rock>)
    requires i <= |s|
    ensures |r| == |s| - i
    decreases |s| - i
  {
    var j := CubeFrom(s, i);
    if j < |s| then Packed(CountIn(s, i, j, Rounded), j - i) + [Cube] + TiltFrom(s, j + 1)
    else Packed(CountIn(s, i, j, Rounded), j - i)
  }

  /** The line after tilting it towards its start. */
  function Tilt(s: seq<Rock>): (r: seq<Rock>)
    ensures |r| == |s|
  {
    TiltFrom(s, 0)
  }

  function Reverse(s: seq<Rock>): (r: seq<Rock>)
    ensures |r| == |s|
  {
    seq(|s|, i requires 0 <= i < |s| => s[|s| - 1 - i])
  }

  /** The line after tilting it towards its end. */
  function TiltEnd(s: seq<Rock>): (r: seq<Rock>)
    ensures |r| == |s|
  {
    Reverse(Tilt(Reverse(s)))
  }

  /** Where the next rounded rock of `s[i..]`, tilted towards its start, comes to rest: just
      past the last cube rock, plus one cell per rounded rock after it. */
  function LimitFrom(s: seq<Rock>, i: nat): (n: nat)
    requires i <= |s|
    ensures i <= n <= |s|
    decreases |s| - i
  {
    var j := CubeFrom(s, i);
    if j == |s| then i + CountIn(s, i, j, Rounded) else LimitFrom(s, j + 1)
  }

  function Limit(s: seq<Rock>): (n: nat)
    ensures n <= |s|
  {
    LimitFrom(s, 0)
  }

  // ---------------------------------------------------------------------------------------
  // One more cell at the end

  /** A tilted line `t` after one more cell `x` is added at its end: a rounded rock comes to
      rest at `limit`, anything else stays where it is. */
  function Settle(t: seq<Rock>, limit: nat, x: Rock): (r: seq<Rock>)
    requires limit <= |t|
    ensures |r| == |t| + 1
  {
    if x == Rounded then (t + [Empty])[limit := Rounded] else t + [x]
  }

  lemma {:induction false} CubeFromSnoc(p: seq<Rock>, x: Rock, i: nat)
    requires i <= |p|
    ensures CubeFrom(p + [x], i) == if CubeFrom(p, i) < |p| || x == Cube then CubeFrom(p, i) else |p| + 1
    decreases |p| - i
  {
    if i < |p| && p[i] != Cube {
      CubeFromSnoc(p, x, i + 1);
    }
  }

  lemma {:induction false} CountInPrefix(p: seq<Rock>, x: Rock, lo: nat, hi: nat, k: Rock)
    requires lo <= hi <= |p|
    ensures CountIn(p + [x], lo, hi, k) == CountIn(p, lo, hi, k)
    decreases hi - lo
  {
    if lo < hi {
      CountInPrefix(p, x, lo, hi - 1, k);
    }
  }

  lemma CountInSnoc(p: seq<Rock>, x: Rock, lo: nat, k: Rock)
    requires lo <= |p|
    ensures CountIn(p + [x], lo, |p| + 1, k) == CountIn(p, lo, |p|, k) + (if x == k then 1 else 0)
  {
    CountInPrefix(p, x, lo, |p|, k);
  }

  /** One more cell after packed rounded rocks: empty, or one more rounded rock. */
  lemma PackedGrows(c: nat, n: nat)
    requires c <= n
    ensures Packed(c, n + 1) == Packed(c, n) + [Empty]
    ensures Packed(c + 1, n + 1) == (Packed(c, n) + [Empty])[c := Rounded]
  {
    var a, b := Packed(c + 1, n + 1), (Packed(c, n) + [Empty])[c := Rounded];
    forall i | 0 <= i < n + 1
      ensures a[i] == b[i]
    {
      if i < n {
        assert (Packed(c, n) + [Empty])[i] == Packed(c, n)[i];
      }
    }
  }

  /** One more cell settling behind a fixed head settles in the whole line, `|head|` cells
      further on. */
  lemma SettleBehind(head: seq<Rock>, rest: seq<Rock>, settled: seq<Rock>, k: nat, pos: nat, x: Rock)
    requires k <= |rest| && settled == Settle(rest, k, x) && pos == |head| + k
    ensures head + settled == Settle(head + rest, pos, x)
  {
    if x == Rounded {
      assert head + (rest + [Empty]) == head + rest + [Empty];
    } else {
      assert head + (rest + [x]) == head + rest + [x];
    }
  }

  /** One more cell at the end of a line being tilted towards its start: a rounded rock
      comes to rest at the limit, and anything else stays where it is. */
  lemma {:induction false} TiltFromSnoc(p: seq<Rock>, x: Rock, i: nat)
    requires i <= |p|
    ensures TiltFrom(p + [x], i) == Settle(TiltFrom(p, i), LimitFrom(p, i) - i, x)
    decreases |p| - i
  {
    var j := CubeFrom(p, i);
    CubeFromSnoc(p, x, i);
    if j < |p| {
      TiltFromSnoc(p, x, j + 1);
      TiltUnfoldAfterCube(p, x, i);
      SnocBehindCube(p, x, i);
    } else {
      SnocLastStretch(p, x, i);
    }
  }

  /** Where the next rounded rock comes to rest after one more cell. */
  lemma {:induction false} LimitFromSnoc(p: seq<Rock>, x: Rock, i: nat)
    requires i <= |p|
    ensures LimitFrom(p + [x], i) == if x == Cube then |p| + 1 else if x == Rounded then LimitFrom(p, i) + 1 else LimitFrom(p, i)
    decreases |p| - i
  {
    var j := CubeFrom(p, i);
    CubeFromSnoc(p, x, i);
    if j < |p| {
      LimitFromSnoc(p, x, j + 1);
    } else {
      SnocLastStretch(p, x, i);
    }
  }

  /** `TiltFromSnoc` at `i` from `TiltFromSnoc` just past the next cube rock. */
  lemma SnocBehindCube(p: seq<Rock>, x: Rock, i: nat)
    requires i <= |p| && CubeFrom(p, i) < |p|
    requires var j := CubeFrom(p, i);
      var head := Packed(CountIn(p, i, j, Rounded), j - i) + [Cube];
      && TiltFrom(p, i) == head + TiltFrom(p, j + 1)
      && TiltFrom(p + [x], i) == head + TiltFrom(p + [x], j + 1)
      && TiltFrom(p + [x], j + 1) == Settle(TiltFrom(p, j + 1), LimitFrom(p, j + 1) - j - 1, x)
    ensures TiltFrom(p + [x], i) == Settle(TiltFrom(p, i), LimitFrom(p, i) - i, x)
  {
    var j := CubeFrom(p, i);
    var head := Packed(CountIn(p, i, j, Rounded), j - i) + [Cube];
    var t, u := TiltFrom(p, i), TiltFrom(p + [x], i);
    var rest, settled := TiltFrom(p, j + 1), TiltFrom(p + [x], j + 1);
    var k, pos := LimitFrom(p, j + 1) - j - 1, LimitFrom(p, i) - i;
    assert LimitFrom(p, i) == LimitFrom(p, j + 1);
    SettleBehind(head, rest, settled, k, pos, x);
    calc {
      u;
      head + settled;
      Settle(head + rest, pos, x);
      Settle(t, pos, x);
    }
  }

  /** Past a cube rock, `p` and `p + [x]` are tilted the same way up to that cube rock. */
  lemma TiltUnfoldAfterCube(p: seq<Rock>, x: Rock, i: nat)
    requires i <= |p| && CubeFrom(p, i) < |p|
    requires CubeFrom(p + [x], i) == CubeFrom(p, i)
    ensures var j := CubeFrom(p, i);
      var head := Packed(CountIn(p, i, j, Rounded), j - i) + [Cube];
      && TiltFrom(p, i) == head + TiltFrom(p, j + 1)
      && TiltFrom(p + [x], i) == head + TiltFrom(p + [x], j + 1)
  {
    var j := CubeFrom(p, i);
    var c := CountIn(p, i, j, Rounded);
    CountInPrefix(p, x, i, j, Rounded);
    var head := Packed(c, j - i) + [Cube];
    TiltFromAtCube(p, i, j, c, head);
    TiltFromAtCube(p + [x], i, j, c, head);
  }

  /** Before a cube rock, the tilted stretch is packed and the cube stays. */
  lemma TiltFromAtCube(s: seq<Rock>, i: nat, j: nat, c: nat, head: seq<Rock>)
    requires i <= |s| && j == CubeFrom(s, i) < |s| && c == CountIn(s, i, j, Rounded)
    requires head == Packed(c, j - i) + [Cube]
    ensures TiltFrom(s, i) == head + TiltFrom(s, j + 1)
  {
  }

  /** `TiltFromSnoc` when no cube rock follows `i`. */
  lemma SnocLastStretch(p: seq<Rock>, x: Rock, i: nat)
    requires i <= |p| && CubeFrom(p, i) == |p|
    requires CubeFrom(p + [x], i) == if x == Cube then |p| else |p| + 1
    ensures TiltFrom(p + [x], i) == Settle(TiltFrom(p, i), LimitFrom(p, i) - i, x)
    ensures LimitFrom(p + [x], i) == if x == Cube then |p| + 1 else if x == Rounded then LimitFrom(p, i) + 1 else LimitFrom(p, i)
  {
    var c := CountIn(p, i, |p|, Rounded);
    assert TiltFrom(p, i) == Packed(c, |p| - i);
    assert LimitFrom(p, i) == i + c;
    if x == Cube {
      CountInPrefix(p, x, i, |p|, Rounded);
      assert TiltFrom(p + [x], |p| + 1) == [];
      assert TiltFrom(p + [x], i) == Packed(c, |p| - i) + [Cube] + [];
    } else {
      CountInSnoc(p, x, i, Rounded);
      PackedGrows(c, |p| - i);
    }
  }

  /** The step of the inner loops of `roll_north` and `roll_west`. */
  lemma TiltSnoc(p: seq<Rock>, x: Rock)
    ensures Tilt(p + [x]) == Settle(Tilt(p), Limit(p), x)
    ensures Limit(p + [x]) == if x == Cube then |p| + 1 else if x == Rounded then Limit(p) + 1 else Limit(p)
  {
    TiltFromSnoc(p, x, 0);
    LimitFromSnoc(p, x, 0);
  }

  // ---------------------------------------------------------------------------------------
  // What a tilt keeps and what it establishes

  /** No cube rock lies between `i` and the next cube rock. */
  lemma {:induction false} BeforeCube(s: seq<Rock>, i: nat, m: nat)
    requires i <= |s| && i <= m < CubeFrom(s, i)
    ensures s[m] != Cube
    decreases |s| - i
  {
    if m > i {
      BeforeCube(s, i + 1, m);
    }
  }

  /** Tilting keeps every cube rock where it is and puts none anywhere else. */
  lemma {:induction false} TiltFromKeepsCubes(s: seq<Rock>, i: nat, m: nat)
    requires i <= m < |s|
    ensures TiltFrom(s, i)[m - i] == Cube <==> s[m] == Cube
    decreases |s| - i
  {
    var j := CubeFrom(s, i);
    var c := CountIn(s, i, j, Rounded);
    var packed := Packed(c, j - i);
    var t := TiltFrom(s, i);
    if j == |s| {
      assert t == packed;
      BeforeCube(s, i, m);
    } else {
      var head := packed + [Cube];
      var rest := TiltFrom(s, j + 1);
      TiltFromAtCube(s, i, j, c, head);
      assert t == head + rest;
      if m < j {
        BeforeCube(s, i, m);
        assert t[m - i] == packed[m - i];
      } else if m > j {
        TiltFromKeepsCubes(s, j + 1, m);
        assert t[m - i] == rest[m - j - 1];
      }
    }
  }

  /** Counting over `s[lo..hi]` in two parts. */
  lemma {:induction false} CountInSplit(s: seq<Rock>, lo: nat, mid: nat, hi: nat, k: Rock)
    requires lo <= mid <= hi <= |s|
    ensures CountIn(s, lo, hi, k) == CountIn(s, lo, mid, k) + CountIn(s, mid, hi, k)
    decreases hi - mid
  {
    if mid < hi {
      CountInSplit(s, lo, mid, hi - 1, k);
    }
  }

  /** Counting over a stretch of `s` that `t` repeats from `d` places further on. */
  lemma {:induction false} CountInShift(s: seq<Rock>, t: seq<Rock>, lo: nat, hi: nat, d: nat, k: Rock)
    requires lo <= hi <= |s| && hi + d <= |t|
    requires forall m :: lo <= m < hi ==> s[m] == t[m + d]
    ensures CountIn(s, lo, hi, k) == CountIn(t, lo + d, hi + d, k)
    decreases hi - lo
  {
    if lo < hi {
      CountInShift(s, t, lo, hi - 1, d, k);
    }
  }

  /** Counting a concatenation part by part. */
  lemma CountConcat(a: seq<Rock>, b: seq<Rock>, k: Rock)
    ensures Count(a + b, k) == Count(a, k) + Count(b, k)
  {
    CountInSplit(a + b, 0, |a|, |a + b|, k);
    CountFront(a, b, k);
    CountBack(a, b, k);
  }

  lemma CountFront(a: seq<Rock>, b: seq<Rock>, k: Rock)
    ensures CountIn(a + b, 0, |a|, k) == Count(a, k)
  {
    var ab := a + b;
    assert forall m :: 0 <= m < |a| ==> a[m] == ab[m + 0];
    CountInShift(a, ab, 0, |a|, 0, k);
  }

  lemma CountBack(a: seq<Rock>, b: seq<Rock>, k: Rock)
    ensures CountIn(a + b, |a|, |a| + |b|, k) == Count(b, k)
  {
    var ab := a + b;
    assert forall m :: 0 <= m < |b| ==> b[m] == ab[m + |a|];
    CountInShift(b, ab, 0, |b|, |a|, k);
  }

  /** The first `m` cells of packed rocks: `min(m, c)` rounded, the rest empty. */
  lemma {:induction false} CountPacked(c: nat, n: nat, m: nat, k: Rock)
    requires c <= n && m <= n
    ensures CountIn(Packed(c, n), 0, m, k)
         == match k
            case Rounded => if m < c then m else c
            case Empty => if m < c then 0 else m - c
            case Cube => 0
  {
    if m > 0 {
      CountPacked(c, n, m - 1, k);
    }
  }

  /** Before the next cube rock every cell is empty or rounded. */
  lemma {:induction false} CountStretch(s: seq<Rock>, i: nat, m: nat)
    requires i <= |s| && i <= m <= CubeFrom(s, i)
    ensures CountIn(s, i, m, Cube) == 0
    ensures CountIn(s, i, m, Empty) == m - i - CountIn(s, i, m, Rounded)
  {
    if m > i {
      CountStretch(s, i, m - 1);
      BeforeCube(s, i, m - 1);
    }
  }

  /** Tilting keeps the number of rocks of every kind. */
  lemma {:induction false} TiltFromCounts(s: seq<Rock>, i: nat, k: Rock)
    requires i <= |s|
    ensures Count(TiltFrom(s, i), k) == CountIn(s, i, |s|, k)
    decreases |s| - i
  {
    var j := CubeFrom(s, i);
    StretchCounts(s, i, k);
    if j < |s| {
      TiltFromCounts(s, j + 1, k);
      CountAroundCube(Packed(CountIn(s, i, j, Rounded), j - i), TiltFrom(s, j + 1), k);
      CountInAroundCube(s, i, j, k);
    }
  }

  lemma CountInAroundCube(s: seq<Rock>, i: nat, j: nat, k: Rock)
    requires i <= j < |s| && s[j] == Cube
    ensures CountIn(s, i, |s|, k) == CountIn(s, i, j, k) + (if k == Cube then 1 else 0) + CountIn(s, j + 1, |s|, k)
  {
    CountInSplit(s, i, j, |s|, k);
    CountInSplit(s, j, j + 1, |s|, k);
  }

  lemma CountAroundCube(a: seq<Rock>, b: seq<Rock>, k: Rock)
    ensures Count(a + [Cube] + b, k) == Count(a, k) + (if k == Cube then 1 else 0) + Count(b, k)
  {
    CountConcat(a, [Cube], k);
    CountConcat(a + [Cube], b, k);
  }

  /** The packed stretch before the next cube rock has the counts of that stretch. */
  lemma StretchCounts(s: seq<Rock>, i: nat, k: Rock)
    requires i <= |s|
    ensures var j := CubeFrom(s, i);
      Count(Packed(CountIn(s, i, j, Rounded), j - i), k) == CountIn(s, i, j, k)
  {
    var j := CubeFrom(s, i);
    CountPacked(CountIn(s, i, j, Rounded), j - i, j - i, k);
    CountStretch(s, i, j);
  }

  /** No rounded rock has an empty cell just before it. */
  predicate Settled(t: seq<Rock>)
  {
    forall m :: 0 < m < |t| && t[m] == Rounded ==> t[m - 1] != Empty
  }

  /** No rounded rock has an empty cell just after it. */
  predicate SettledEnd(t: seq<Rock>)
  {
    forall m :: 0 <= m < |t| - 1 && t[m] == Rounded ==> t[m + 1] != Empty
  }

  /** After tilting, every rounded rock rests against the start, a cube rock or another
      rounded rock. */
  lemma {:induction false} TiltFromSettled(s: seq<Rock>, i: nat)
    requires i <= |s|
    ensures Settled(TiltFrom(s, i))
    decreases |s| - i
  {
    var j := CubeFrom(s, i);
    var c := CountIn(s, i, j, Rounded);
    var packed := Packed(c, j - i);
    if j < |s| {
      TiltFromSettled(s, j + 1);
      var rest := TiltFrom(s, j + 1);
      var t := packed + [Cube] + rest;
      forall m | 0 < m < |t| && t[m] == Rounded
        ensures t[m - 1] != Empty
      {
        if m > j - i + 1 {
          assert t[m] == rest[m - (j - i + 1)];
          assert t[m - 1] == rest[m - 1 - (j - i + 1)];
        }
      }
    }
  }

  /** Tilting towards the start: cube rocks stay, counts are kept, rounded rocks settle. */
  lemma TiltLaws(s: seq<Rock>)
    ensures forall m :: 0 <= m < |s| ==> (Tilt(s)[m] == Cube <==> s[m] == Cube)
    ensures forall k :: Count(Tilt(s), k) == Count(s, k)
    ensures Settled(Tilt(s))
  {
    forall m | 0 <= m < |s|
      ensures Tilt(s)[m] == Cube <==> s[m] == Cube
    {
      TiltFromKeepsCubes(s, 0, m);
    }
    forall k
      ensures Count(Tilt(s), k) == Count(s, k)
    {
      TiltFromCounts(s, 0, k);
    }
    TiltFromSettled(s, 0);
  }

  /** Reversing a line keeps its counts. */
  lemma {:induction false} CountReverse(s: seq<Rock>, n: nat, k: Rock)
    requires n <= |s|
    ensures CountIn(Reverse(s), 0, n, k) == CountIn(s, |s| - n, |s|, k)
  {
    if n > 0 {
      CountReverse(s, n - 1, k);
      CountInSplit(s, |s| - n, |s| - n + 1, |s|, k);
    }
  }

  lemma ReverseReverse(s: seq<Rock>)
    ensures Reverse(Reverse(s)) == s
  {
  }

  /** Tilting towards the end: cube rocks stay, counts are kept, rounded rocks settle. */
  lemma TiltEndLaws(s: seq<Rock>)
    ensures forall m :: 0 <= m < |s| ==> (TiltEnd(s)[m] == Cube <==> s[m] == Cube)
    ensures forall k :: Count(TiltEnd(s), k) == Count(s, k)
    ensures SettledEnd(TiltEnd(s))
  {
    TiltLaws(Reverse(s));
    forall m | 0 <= m < |s|
      ensures TiltEnd(s)[m] == Cube <==> s[m] == Cube
    {
      TiltEndCube(s, m);
    }
    forall k
      ensures Count(TiltEnd(s), k) == Count(s, k)
    {
      TiltEndCount(s, k);
    }
    TiltEndSettled(s);
  }

  lemma TiltEndCube(s: seq<Rock>, m: nat)
    requires m < |s|
    requires forall m :: 0 <= m < |s| ==> (Tilt(Reverse(s))[m] == Cube <==> Reverse(s)[m] == Cube)
    ensures TiltEnd(s)[m] == Cube <==> s[m] == Cube
  {
    assert TiltEnd(s)[m] == Tilt(Reverse(s))[|s| - 1 - m];
    assert Reverse(s)[|s| - 1 - m] == s[m];
  }

  lemma TiltEndCount(s: seq<Rock>, k: Rock)
    requires Count(Tilt(Reverse(s)), k) == Count(Reverse(s), k)
    ensures Count(TiltEnd(s), k) == Count(s, k)
  {
    CountReverse(Tilt(Reverse(s)), |s|, k);
    CountReverse(s, |s|, k);
  }

  lemma TiltEndSettled(s: seq<Rock>)
    requires Settled(Tilt(Reverse(s)))
    ensures SettledEnd(TiltEnd(s))
  {
    var t := Tilt(Reverse(s));
    forall m | 0 <= m < |s| - 1 && TiltEnd(s)[m] == Rounded
      ensures TiltEnd(s)[m + 1] != Empty
    {
      assert TiltEnd(s)[m] == t[|s| - 1 - m];
      assert TiltEnd(s)[m + 1] == t[|s| - 1 - m - 1];
    }
  }
}
