/** Point of Incidence (`src/bin/13.rs`): patterns of ash ('.') and rocks ('#') are read into
    one bit mask per row and one per column, and a line of reflection is a place in the row
    masks, or in the column masks, where the masks mirror each other out to the nearer edge.
    With a smudge the two sides must differ in exactly one cell. */
module Day13 {
  import opened Wrappers
  import opened Text
  import opened Divisibility
  import opened Bits

  // ---------------------------------------------------------------------------------------
  // Reflections in a sequence of masks

  /** The number of mirrored pairs around the line before `ix`: out to the nearer end. */
  function Size(s: seq<nat>, ix: nat): nat
    requires 0 < ix < |s|
  {
    if ix <= |s| - ix then ix else |s| - ix
  }

  /** The `pos`-th mirrored pair: `left` is the part before `ix` reversed, `right` the rest. */
  function Left(s: seq<nat>, ix: nat, pos: nat): nat
    requires 0 < ix < |s| && pos < Size(s, ix)
  {
    s[ix - 1 - pos]
  }

  function Right(s: seq<nat>, ix: nat, pos: nat): nat
    requires 0 < ix < |s| && pos < Size(s, ix)
  {
    s[ix + pos]
  }

  /** The `fold` of `mirrors_in_sequence`: the OR of the XORs of the first `n` pairs. */
  function Deviation(s: seq<nat>, ix: nat, n: nat): nat
    requires 0 < ix < |s| && n <= Size(s, ix)
  {
    if n == 0 then 0 else Or(Deviation(s, ix, n - 1), Xor(Left(s, ix, n - 1), Right(s, ix, n - 1)))
  }

  /** The number of cells that differ between the first `n` pairs. */
  function DifferingCells(s: seq<nat>, ix: nat, n: nat): nat
    requires 0 < ix < |s| && n <= Size(s, ix)
  {
    if n == 0 then 0 else DifferingCells(s, ix, n - 1) + PopCount(Xor(Left(s, ix, n - 1), Right(s, ix, n - 1)))
  }

  /** The filter of `mirrors_in_sequence` as written: the OR of the differences has
      `deviation` bits set. */
  predicate IsMirrorAsWritten(s: seq<nat>, ix: nat, deviation: nat)
    requires 0 < ix < |s|
  {
    PopCount(Deviation(s, ix, Size(s, ix))) == deviation
  }

  /** The filter as intended: `deviation` cells differ across the line. */
  predicate IsMirror(s: seq<nat>, ix: nat, deviation: nat)
    requires 0 < ix < |s|
  {
    DifferingCells(s, ix, Size(s, ix)) == deviation
  }

  /** `mirrors_in_sequence` as written: the lines from `ix` on, in increasing order. */
  function MirrorsAsWrittenFrom(s: seq<nat>, deviation: nat, ix: nat): seq<nat>
    requires ix > 0
    decreases |s| - ix
  {
    if ix >= |s| then []
    else (if IsMirrorAsWritten(s, ix, deviation) then [ix] else []) + MirrorsAsWrittenFrom(s, deviation, ix + 1)
  }

  function MirrorsAsWritten(s: seq<nat>, deviation: nat): seq<nat>
  {
    MirrorsAsWrittenFrom(s, deviation, 1)
  }

  /** `mirrors_in_sequence` with the intended filter. */
  function MirrorsFrom(s: seq<nat>, deviation: nat, ix: nat): (r: seq<nat>)
    requires ix > 0
    ensures forall k :: 0 <= k < |r| ==> ix <= r[k] < |s| && IsMirror(s, r[k], deviation)
    ensures forall j :: ix <= j < |s| && IsMirror(s, j, deviation) ==> j in r
    ensures forall k, l :: 0 <= k < l < |r| ==> r[k] < r[l]
    decreases |s| - ix
  {
    if ix >= |s| then []
    else (if IsMirror(s, ix, deviation) then [ix] else []) + MirrorsFrom(s, deviation, ix + 1)
  }

  function Mirrors(s: seq<nat>, deviation: nat): seq<nat>
  {
    MirrorsFrom(s, deviation, 1)
  }

  /** Both filters accept the same lines when no cell may differ. */
  lemma {:induction false} NoDeviation(s: seq<nat>, ix: nat, n: nat)
    requires 0 < ix < |s| && n <= Size(s, ix)
    ensures Deviation(s, ix, n) == 0 <==> DifferingCells(s, ix, n) == 0
    ensures DifferingCells(s, ix, n) == 0 <==> forall pos :: 0 <= pos < n ==> Left(s, ix, pos) == Right(s, ix, pos)
    decreases n
  {
    if n > 0 {
      NoDeviation(s, ix, n - 1);
      var d := Xor(Left(s, ix, n - 1), Right(s, ix, n - 1));
      OrIsZero(Deviation(s, ix, n - 1), d);
      PopCountZero(d);
      XorZero(Left(s, ix, n - 1), Right(s, ix, n - 1));
    }
  }

  /** A perfect reflection: every mirrored pair out to the nearer edge is equal. */
  predicate Reflects(s: seq<nat>, ix: nat)
  {
    0 < ix < |s| && forall pos :: 0 <= pos < Size(s, ix) ==> Left(s, ix, pos) == Right(s, ix, pos)
  }

  /** Without a smudge, the lines found are exactly the perfect reflections, and the code as
      written finds the same ones. */
  lemma PerfectMirrors(s: seq<nat>, ix: nat)
    ensures ix in Mirrors(s, 0) <==> Reflects(s, ix)
    ensures MirrorsAsWritten(s, 0) == Mirrors(s, 0)
  {
    if 0 < ix < |s| {
      NoDeviation(s, ix, Size(s, ix));
    }
    if ix in Mirrors(s, 0) {
      var k :| 0 <= k < |Mirrors(s, 0)| && Mirrors(s, 0)[k] == ix;
    }
    AgreeWithoutSmudge(s, 1);
  }

  lemma {:induction false} AgreeWithoutSmudge(s: seq<nat>, ix: nat)
    requires ix > 0
    ensures MirrorsAsWrittenFrom(s, 0, ix) == MirrorsFrom(s, 0, ix)
    decreases |s| - ix
  {
    if ix < |s| {
      NoDeviation(s, ix, Size(s, ix));
      PopCountZero(Deviation(s, ix, Size(s, ix)));
      AgreeWithoutSmudge(s, ix + 1);
    }
  }

  /** One step of the search without a smudge: the line before `ix` is listed when it is a
      perfect reflection. */
  lemma PerfectStep(s: seq<nat>, ix: nat)
    requires 0 < ix < |s|
    ensures MirrorsFrom(s, 0, ix) == (if Reflects(s, ix) then [ix] else []) + MirrorsFrom(s, 0, ix + 1)
  {
    NoDeviation(s, ix, Size(s, ix));
  }

  /** One step of the search: the line before `ix` is listed when it is a mirror. */
  lemma MirrorStep(s: seq<nat>, deviation: nat, ix: nat)
    requires 0 < ix < |s|
    ensures MirrorsFrom(s, deviation, ix) == (if IsMirror(s, ix, deviation) then [ix] else []) + MirrorsFrom(s, deviation, ix + 1)
  {
  }

  /** Each mirrored pair adds the cells in which it differs. */
  lemma {:induction false} CellsAtLeast(s: seq<nat>, ix: nat, n: nat, pos: nat)
    requires 0 < ix < |s| && pos < n <= Size(s, ix)
    ensures DifferingCells(s, ix, n) >= PopCount(Xor(Left(s, ix, pos), Right(s, ix, pos)))
    decreases n
  {
    if pos < n - 1 {
      CellsAtLeast(s, ix, n - 1, pos);
    }
  }

  /** Two unequal mirrored pairs differ in at least two cells. */
  lemma {:induction false} TwoPairsDiffer(s: seq<nat>, ix: nat, n: nat, p: nat, q: nat)
    requires 0 < ix < |s| && p < q < n <= Size(s, ix)
    requires Left(s, ix, p) != Right(s, ix, p) && Left(s, ix, q) != Right(s, ix, q)
    ensures DifferingCells(s, ix, n) >= 2
    decreases n
  {
    XorZero(Left(s, ix, q), Right(s, ix, q));
    PopCountZero(Xor(Left(s, ix, q), Right(s, ix, q)));
    XorZero(Left(s, ix, p), Right(s, ix, p));
    PopCountZero(Xor(Left(s, ix, p), Right(s, ix, p)));
    CellsAtLeast(s, ix, q, p);
    if q < n - 1 {
      TwoPairsDiffer(s, ix, n - 1, p, q);
    }
  }

  /** The code as written never sees more differences than there are cells that differ. */
  lemma {:induction false} DeviationBound(s: seq<nat>, ix: nat, n: nat)
    requires 0 < ix < |s| && n <= Size(s, ix)
    ensures PopCount(Deviation(s, ix, n)) <= DifferingCells(s, ix, n)
    decreases n
  {
    if n > 0 {
      DeviationBound(s, ix, n - 1);
      PopCountOr(Deviation(s, ix, n - 1), Xor(Left(s, ix, n - 1), Right(s, ix, n - 1)));
    }
  }

  /** With a smudge, a line is found exactly when one mirrored pair differs, in a single
      cell, and every other pair is equal. */
  predicate OneSmudge(s: seq<nat>, ix: nat, n: nat)
    requires 0 < ix < |s| && n <= Size(s, ix)
  {
    exists pos :: 0 <= pos < n && PopCount(Xor(Left(s, ix, pos), Right(s, ix, pos))) == 1
      && forall q :: 0 <= q < n && q != pos ==> Left(s, ix, q) == Right(s, ix, q)
  }

  lemma {:induction false} SmudgedMirror(s: seq<nat>, ix: nat, n: nat)
    requires 0 < ix < |s| && n <= Size(s, ix)
    ensures DifferingCells(s, ix, n) == 1 <==> OneSmudge(s, ix, n)
    decreases n
  {
    if n > 0 {
      SmudgedMirror(s, ix, n - 1);
      if DifferingCells(s, ix, n) == 1 {
        SmudgeFound(s, ix, n);
      }
      if OneSmudge(s, ix, n) {
        SmudgeCounted(s, ix, n);
      }
    }
  }

  lemma SmudgeFound(s: seq<nat>, ix: nat, n: nat)
    requires 0 < ix < |s| && 0 < n <= Size(s, ix)
    requires DifferingCells(s, ix, n - 1) == 1 <==> OneSmudge(s, ix, n - 1)
    requires DifferingCells(s, ix, n) == 1
    ensures OneSmudge(s, ix, n)
  {
    var last := n - 1;
    var d := Xor(Left(s, ix, last), Right(s, ix, last));
    NoDeviation(s, ix, last);
    if PopCount(d) == 1 {
      assert forall q :: 0 <= q < n && q != last ==> Left(s, ix, q) == Right(s, ix, q);
    } else {
      PopCountZero(d);
      XorZero(Left(s, ix, last), Right(s, ix, last));
      var pos :| 0 <= pos < last && PopCount(Xor(Left(s, ix, pos), Right(s, ix, pos))) == 1
        && forall q :: 0 <= q < last && q != pos ==> Left(s, ix, q) == Right(s, ix, q);
      assert forall q :: 0 <= q < n && q != pos ==> Left(s, ix, q) == Right(s, ix, q);
    }
  }

  lemma SmudgeCounted(s: seq<nat>, ix: nat, n: nat)
    requires 0 < ix < |s| && 0 < n <= Size(s, ix)
    requires DifferingCells(s, ix, n - 1) == 1 <==> OneSmudge(s, ix, n - 1)
    requires OneSmudge(s, ix, n)
    ensures DifferingCells(s, ix, n) == 1
  {
    var last := n - 1;
    var pos :| 0 <= pos < n && PopCount(Xor(Left(s, ix, pos), Right(s, ix, pos))) == 1
      && forall q :: 0 <= q < n && q != pos ==> Left(s, ix, q) == Right(s, ix, q);
    if pos == last {
      NoDeviation(s, ix, last);
      assert forall q :: 0 <= q < last ==> Left(s, ix, q) == Right(s, ix, q);
    } else {
      assert OneSmudge(s, ix, last);
      XorZero(Left(s, ix, last), Right(s, ix, last));
    }
  }

  /** The code as written accepts [1, 1, 0, 0] with a smudge at the line after the second
      mask: both mirrored pairs differ in the same bit, so their OR has one bit set, but two
      cells would have to change. The intended filter rejects it. */
  lemma SmudgeAsWritten()
    ensures MirrorsAsWritten([1, 1, 0, 0], 1) == [2]
    ensures Mirrors([1, 1, 0, 0], 1) == []
  {
    var s: seq<nat> := [1, 1, 0, 0];
    assert Size(s, 2) == 2;
    assert Deviation(s, 2, 2) == 1;
    assert DifferingCells(s, 2, 2) == 2;
  }

  // ---------------------------------------------------------------------------------------
  // Patterns

  /** `Mirror`: a horizontal line below `rows` rows or a vertical line right of `cols`
      columns. */
  datatype Mirror = Horizontal(rows: nat) | Vertical(cols: nat)

  /** `Mirror::value`. */
  function Value(m: Mirror): nat
  {
    match m
    case Horizontal(rows) => 100 * rows
    case Vertical(cols) => cols
  }

  /** `Pattern`: bit `c` of `rows[r]` and bit `r` of `cols[c]` are the cell in row `r` and
      column `c`. */
  datatype Pattern = Pattern(cols: seq<nat>, rows: seq<nat>)

  /** The lines of reflection between columns, in order. */
  function AsVertical(xs: seq<nat>): (r: seq<Mirror>)
    ensures |r| == |xs|
    ensures forall k :: 0 <= k < |r| ==> r[k] == Vertical(xs[k])
    ensures forall m :: m in r <==> m.Vertical? && m.cols in xs
  {
    if xs == [] then [] else [Vertical(xs[0])] + AsVertical(xs[1..])
  }

  /** The lines of reflection between rows, in order. */
  function AsHorizontal(xs: seq<nat>): (r: seq<Mirror>)
    ensures |r| == |xs|
    ensures forall k :: 0 <= k < |r| ==> r[k] == Horizontal(xs[k])
    ensures forall m :: m in r <==> m.Horizontal? && m.rows in xs
  {
    if xs == [] then [] else [Horizontal(xs[0])] + AsHorizontal(xs[1..])
  }

  /** `find_mirrors`: the vertical lines of reflection, then the horizontal ones. */
  function FindMirrors(p: Pattern, smudge: bool): (r: seq<Mirror>)
    ensures forall m :: m in r <==>
      (m.Vertical? && m.cols in Mirrors(p.cols, if smudge then 1 else 0))
      || (m.Horizontal? && m.rows in Mirrors(p.rows, if smudge then 1 else 0))
    ensures forall k, l :: 0 <= k < l < |r| && r[l].Vertical? ==> r[k].Vertical?
  {
    var deviation := if smudge then 1 else 0;
    AsVertical(Mirrors(p.cols, deviation)) + AsHorizontal(Mirrors(p.rows, deviation))
  }

  // ---------------------------------------------------------------------------------------
  // Reading a pattern

  predicate IsCell(ch: char) { ch == '#' || ch == '.' }

  /** The value of a cell as a bit: 1 for a rock. */
  function CellValue(ch: char): nat
  {
    if ch == '#' then 1 else 0
  }

  /** Every character of every line is a cell. */
  predicate ValidGrid(lines: seq<String>)
  {
    forall r, c :: 0 <= r < |lines| && 0 <= c < |lines[r]| ==> IsCell(lines[r][c])
  }

  /** `row`: the OR over the line's cells of `value << c`. */
  function RowMask(line: String): nat
  {
    if line == [] then 0 else Or(RowMask(line[..|line| - 1]), CellValue(line[|line| - 1]) * Pow2(|line| - 1))
  }

  /** The contribution of line `r` to column `c`: `value << r` for the cell, if any. */
  function CellBit(line: String, c: nat, r: nat): nat
  {
    if c < |line| then CellValue(line[c]) * Pow2(r) else 0
  }

  /** `cols[c]`: the OR over the lines of their contributions to column `c`. */
  function ColMask(lines: seq<String>, c: nat): nat
  {
    if lines == [] then 0 else Or(ColMask(lines[..|lines| - 1], c), CellBit(lines[|lines| - 1], c, |lines| - 1))
  }

  /** The length of the longest line: the number of columns. */
  function Width(lines: seq<String>): nat
  {
    if lines == [] then 0
    else
      var w := Width(lines[..|lines| - 1]);
      var n := |lines[|lines| - 1]|;
      if n > w then n else w
  }

  /** The pattern that `from_str` builds from the lines. */
  function PatternOf(lines: seq<String>): Pattern
  {
    Pattern(seq(Width(lines), c requires 0 <= c => ColMask(lines, c)), seq(|lines|, r requires 0 <= r < |lines| => RowMask(lines[r])))
  }

  /** `Pattern::from_str`. */
  function ParsedPattern(s: String): Result<Pattern>
  {
    var lines := Lines(s);
    if ValidGrid(lines) then Ok(PatternOf(lines)) else Err
  }

  /** `value << c` and `value << r` stay within a `usize`: wider patterns overflow the shift. */
  predicate FitsInWord(lines: seq<String>)
  {
    |lines| <= 64 && forall r :: 0 <= r < |lines| ==> |lines[r]| <= 64
  }

  lemma {:induction false} RowMaskBits(line: String, c: nat)
    ensures Bit(RowMask(line), c) <==> c < |line| && line[c] == '#'
    decreases |line|
  {
    if line == [] {
      BitZero(c);
    } else {
      var n := |line| - 1;
      var prefix := line[..n];
      RowMaskBits(prefix, c);
      BitOr(RowMask(prefix), CellValue(line[n]) * Pow2(n), c);
      if line[n] == '#' {
        BitPow2(n, c);
      } else {
        BitZero(c);
      }
    }
  }

  lemma {:induction false} ColMaskBits(lines: seq<String>, c: nat, r: nat)
    ensures Bit(ColMask(lines, c), r) <==> r < |lines| && c < |lines[r]| && lines[r][c] == '#'
    decreases |lines|
  {
    if lines == [] {
      BitZero(r);
    } else {
      var n := |lines| - 1;
      var prefix := lines[..n];
      ColMaskBits(prefix, c, r);
      BitOr(ColMask(prefix, c), CellBit(lines[n], c, n), r);
      if c < |lines[n]| && lines[n][c] == '#' {
        BitPow2(n, r);
      } else {
        BitZero(r);
      }
    }
  }

  /** The bits read from a pattern are its rocks: bit `c` of row `r`, and bit `r` of column
      `c`, is set exactly when the cell in row `r` and column `c` is '#'; and it is an error
      exactly when some character is neither '#' nor '.'. */
  lemma PatternBits(s: String, r: nat, c: nat)
    ensures ParsedPattern(s).Err? <==> exists r, c :: 0 <= r < |Lines(s)| && 0 <= c < |Lines(s)[r]| && !IsCell(Lines(s)[r][c])
    ensures ParsedPattern(s).Ok? ==>
      var p, lines := ParsedPattern(s).value, Lines(s);
      |p.rows| == |lines| && |p.cols| == Width(lines)
      && (r < |p.rows| ==> (Bit(p.rows[r], c) <==> c < |lines[r]| && lines[r][c] == '#'))
      && (c < |p.cols| ==> (Bit(p.cols[c], r) <==> r < |lines| && c < |lines[r]| && lines[r][c] == '#'))
  {
    var lines := Lines(s);
    if r < |lines| {
      RowMaskBits(lines[r], c);
    }
    ColMaskBits(lines, c, r);
  }

  lemma {:induction false} ColMaskBeyond(lines: seq<String>, c: nat)
    requires c >= Width(lines)
    ensures ColMask(lines, c) == 0
    decreases |lines|
  {
    if lines != [] {
      ColMaskBeyond(lines[..|lines| - 1], c);
    }
  }

  /** The column masks of the lines. */
  function Columns(lines: seq<String>): (cols: seq<nat>)
    ensures |cols| == Width(lines)
  {
    seq(Width(lines), c requires 0 <= c => ColMask(lines, c))
  }

  /** The columns with line `r` OR-ed in: a new column for each cell past the old width. */
  function AddLine(cols: seq<nat>, line: String, r: nat): (result: seq<nat>)
    ensures |result| == if |line| > |cols| then |line| else |cols|
  {
    seq(if |line| > |cols| then |line| else |cols|,
        c requires 0 <= c => Or(if c < |cols| then cols[c] else 0, CellBit(line, c, r)))
  }

  /** Reading one more line adds its cells to the columns. */
  lemma ColumnsStep(lines: seq<String>, r: nat)
    requires r < |lines|
    ensures Columns(lines[..r + 1]) == AddLine(Columns(lines[..r]), lines[r], r)
  {
    var before, after := lines[..r], lines[..r + 1];
    assert after[..r] == before && after[r] == lines[r];
    var a, b := Columns(after), AddLine(Columns(before), lines[r], r);
    forall c | 0 <= c < |a| ensures a[c] == b[c] {
      if c >= Width(before) {
        ColMaskBeyond(before, c);
      }
    }
  }

  /** The inner loop of `Pattern::from_str` over the cells of line `r`: the row mask, and
      each cell OR-ed into its column, pushing a new column past the current width; `false`
      at the first character that is not a cell. */
  method ReadRow(line: String, r: nat, cols: seq<nat>) returns (ok: bool, row: nat, newCols: seq<nat>)
    requires |line| <= 64 && r < 64
    ensures ok <==> forall c :: 0 <= c < |line| ==> IsCell(line[c])
    ensures ok ==> row == RowMask(line) && newCols == AddLine(cols, line, r)
  {
    row := 0;
    newCols := cols;
    for c := 0 to |line|
      invariant forall j :: 0 <= j < c ==> IsCell(line[j])
      invariant row == RowMask(line[..c])
      invariant AddedUpTo(cols, newCols, line, r, c)
    {
      var ch := line[c];
      var value: nat;
      if ch == '#' {
        value := 1;
      } else if ch == '.' {
        value := 0;
      } else {
        return false, row, newCols;
      }
      RowMaskStep(line, c, row, value);
      row := Or(row, value * Pow2(c));
      var col := value * Pow2(r);
      ghost var before := newCols;
      if |newCols| < c + 1 {
        newCols := newCols + [col];
      } else {
        newCols := newCols[c := Or(newCols[c], col)];
      }
      AddedStep(cols, before, newCols, line, r, c, col);
    }
    assert line[..|line|] == line;
    AddedAll(cols, newCols, line, r);
    ok := true;
  }

  /** The columns after the first `c` cells of line `r` are OR-ed in. */
  predicate AddedUpTo(cols: seq<nat>, newCols: seq<nat>, line: String, r: nat, c: nat)
  {
    && |newCols| == (if c > |cols| then c else |cols|)
    && forall j :: 0 <= j < |newCols| ==>
         newCols[j] == if j < c then Or(if j < |cols| then cols[j] else 0, CellBit(line, j, r)) else cols[j]
  }

  lemma RowMaskStep(line: String, c: nat, row: nat, value: nat)
    requires c < |line| && row == RowMask(line[..c]) && value == CellValue(line[c])
    ensures Or(row, value * Pow2(c)) == RowMask(line[..c + 1])
  {
    assert line[..c + 1][..c] == line[..c];
  }

  lemma AddedStep(cols: seq<nat>, before: seq<nat>, after: seq<nat>, line: String, r: nat, c: nat, col: nat)
    requires c < |line| && AddedUpTo(cols, before, line, r, c) && col == CellValue(line[c]) * Pow2(r)
    requires after == if |before| < c + 1 then before + [col] else before[c := Or(before[c], col)]
    ensures AddedUpTo(cols, after, line, r, c + 1)
  {
    assert CellBit(line, c, r) == col;
    if |before| < c + 1 {
      OrZero(col);
    }
  }

  lemma AddedAll(cols: seq<nat>, newCols: seq<nat>, line: String, r: nat)
    requires AddedUpTo(cols, newCols, line, r, |line|)
    ensures newCols == AddLine(cols, line, r)
  {
    forall j | |line| <= j < |newCols| ensures newCols[j] == Or(cols[j], CellBit(line, j, r)) {
      OrZero(cols[j]);
    }
  }


  /** `Pattern::from_str`: the lines one by one, each pushing its row mask. */
  method ParsePattern(s: String) returns (result: Result<Pattern>)
    requires FitsInWord(Lines(s))
    ensures result == ParsedPattern(s)
  {
    var lines := Lines(s);
    var cols: seq<nat> := [];
    var rows: seq<nat> := [];
    for r := 0 to |lines|
      invariant ValidGrid(lines[..r])
      invariant |rows| == r && forall k :: 0 <= k < r ==> rows[k] == RowMask(lines[k])
      invariant cols == Columns(lines[..r])
    {
      var ok, row, newCols := ReadRow(lines[r], r, cols);
      if !ok {
        var c :| 0 <= c < |lines[r]| && !IsCell(lines[r][c]);
        GridStops(lines, r, c);
        return Err;
      }
      ColumnsStep(lines, r);
      GridStep(lines, r);
      cols := newCols;
      rows := rows + [row];
    }
    assert lines[..|lines|] == lines;
    PatternFromRows(lines, cols, rows);
    return Ok(Pattern(cols, rows));
  }

  lemma GridStops(lines: seq<String>, r: nat, c: nat)
    requires r < |lines| && c < |lines[r]| && !IsCell(lines[r][c])
    ensures !ValidGrid(lines)
  {
  }

  lemma GridStep(lines: seq<String>, r: nat)
    requires r < |lines| && ValidGrid(lines[..r])
    requires forall c :: 0 <= c < |lines[r]| ==> IsCell(lines[r][c])
    ensures ValidGrid(lines[..r + 1])
  {
    assert forall k :: 0 <= k < r ==> lines[..r + 1][k] == lines[..r][k];
  }

  lemma PatternFromRows(lines: seq<String>, cols: seq<nat>, rows: seq<nat>)
    requires cols == Columns(lines) && |rows| == |lines|
    requires forall k :: 0 <= k < |lines| ==> rows[k] == RowMask(lines[k])
    ensures Pattern(cols, rows) == PatternOf(lines)
  {
    assert rows == seq(|lines|, r requires 0 <= r < |lines| => RowMask(lines[r]));
  }

  // ---------------------------------------------------------------------------------------
  // The puzzle

  /** The value of a pattern's first line of reflection, if it parses and has one. */
  function FirstMirrorValue(chunk: String, smudge: bool): Option<nat>
  {
    match ParsedPattern(chunk)
    case Err => None
    case Ok(p) =>
      var mirrors := FindMirrors(p, smudge);
      if mirrors == [] then None else Some(Value(mirrors[0]))
  }

  /** The outcome of each pattern. */
  function Outcomes(chunks: seq<String>, smudge: bool): (r: seq<Option<nat>>)
    ensures |r| == |chunks|
  {
    seq(|chunks|, k requires 0 <= k < |chunks| => FirstMirrorValue(chunks[k], smudge))
  }

  /** The `fold` of `total_mirror_value`: the number of patterns that fail and the total of
      the others. */
  function Tally(outcomes: seq<Option<nat>>): (nat, nat)
  {
    if outcomes == [] then (0, 0)
    else
      var (errors, total) := Tally(outcomes[..|outcomes| - 1]);
      match outcomes[|outcomes| - 1]
      case None => (errors + 1, total)
      case Some(v) => (errors, total + v)
  }

  /** The patterns of the input, separated by blank lines. */
  function Patterns(input: String): seq<String>
  {
    Split(input, "\n\n")
  }

  /** `total_mirror_value`. */
  function TotalMirrorValue(input: String, smudge: bool): Option<nat>
  {
    var tally := Tally(Outcomes(Patterns(input), smudge));
    if tally.0 > 0 then None else Some(tally.1)
  }

  /** The sum of the values, none missing. */
  function SumValues(outcomes: seq<Option<nat>>): nat
    requires forall k :: 0 <= k < |outcomes| ==> outcomes[k].Some?
  {
    if outcomes == [] then 0
    else SumValues(outcomes[..|outcomes| - 1]) + outcomes[|outcomes| - 1].value
  }

  lemma {:induction false} TallyMeaning(outcomes: seq<Option<nat>>)
    ensures Tally(outcomes).0 == 0 <==> forall k :: 0 <= k < |outcomes| ==> outcomes[k].Some?
    ensures Tally(outcomes).0 == 0 ==> Tally(outcomes).1 == SumValues(outcomes)
    decreases |outcomes|
  {
    if outcomes != [] {
      var prefix := outcomes[..|outcomes| - 1];
      TallyMeaning(prefix);
      assert forall k :: 0 <= k < |prefix| ==> prefix[k] == outcomes[k];
    }
  }

  /** The total is defined exactly when every pattern parses and has a line of reflection,
      and it is then the sum of the values of their first lines. */
  lemma TotalMirrorValueMeaning(input: String, smudge: bool)
    ensures var outcomes := Outcomes(Patterns(input), smudge);
      && (TotalMirrorValue(input, smudge).Some? <==> forall k :: 0 <= k < |outcomes| ==> outcomes[k].Some?)
      && (TotalMirrorValue(input, smudge).Some? ==> TotalMirrorValue(input, smudge).value == SumValues(outcomes))
  {
    TallyMeaning(Outcomes(Patterns(input), smudge));
  }

}

module Day13Examples {
  import opened Bits
  import opened Day13

  lemma SequenceMirrorsA(s: seq<nat>)
    requires s == [13, 5, 5, 13]
    ensures Mirrors(s, 0) == [2]
  {
    assert MirrorsFrom(s, 0, 4) == [];
    assert MirrorsFrom(s, 0, 3) == [] by {
      assert Left(s, 3, 0) != Right(s, 3, 0);
      PerfectStep(s, 3);
    }
    assert MirrorsFrom(s, 0, 2) == [2] by {
      assert Reflects(s, 2);
      PerfectStep(s, 2);
    }
    assert MirrorsFrom(s, 0, 1) == [2] by {
      assert Left(s, 1, 0) != Right(s, 1, 0);
      PerfectStep(s, 1);
    }
  }

  lemma SequenceMirrorsB(s: seq<nat>)
    requires s == [7, 1, 7, 7, 1, 7]
    ensures Mirrors(s, 0) == [3]
  {
    assert MirrorsFrom(s, 0, 6) == [];
    assert MirrorsFrom(s, 0, 5) == [] by {
      assert Left(s, 5, 0) != Right(s, 5, 0);
      PerfectStep(s, 5);
    }
    assert MirrorsFrom(s, 0, 4) == [] by {
      assert Left(s, 4, 0) != Right(s, 4, 0);
      PerfectStep(s, 4);
    }
    assert MirrorsFrom(s, 0, 3) == [3] by {
      assert Reflects(s, 3);
      PerfectStep(s, 3);
    }
    assert MirrorsFrom(s, 0, 2) == [3] by {
      assert Left(s, 2, 0) != Right(s, 2, 0);
      PerfectStep(s, 2);
    }
    assert MirrorsFrom(s, 0, 1) == [3] by {
      assert Left(s, 1, 0) != Right(s, 1, 0);
      PerfectStep(s, 1);
    }
  }

  lemma SequenceMirrorsC(s: seq<nat>)
    requires s == [13, 14, 15, 16]
    ensures Mirrors(s, 0) == []
  {
    assert MirrorsFrom(s, 0, 4) == [];
    assert MirrorsFrom(s, 0, 3) == [] by {
      assert Left(s, 3, 0) != Right(s, 3, 0);
      PerfectStep(s, 3);
    }
    assert MirrorsFrom(s, 0, 2) == [] by {
      assert Left(s, 2, 0) != Right(s, 2, 0);
      PerfectStep(s, 2);
    }
    assert MirrorsFrom(s, 0, 1) == [] by {
      assert Left(s, 1, 0) != Right(s, 1, 0);
      PerfectStep(s, 1);
    }
  }

  lemma SequenceMirrorsD(s: seq<nat>)
    requires s == [13, 5, 5, 14]
    ensures Mirrors(s, 0) == []
  {
    assert MirrorsFrom(s, 0, 4) == [];
    assert MirrorsFrom(s, 0, 3) == [] by {
      assert Left(s, 3, 0) != Right(s, 3, 0);
      PerfectStep(s, 3);
    }
    assert MirrorsFrom(s, 0, 2) == [] by {
      assert Left(s, 2, 1) != Right(s, 2, 1);
      PerfectStep(s, 2);
    }
    assert MirrorsFrom(s, 0, 1) == [] by {
      assert Left(s, 1, 0) != Right(s, 1, 0);
      PerfectStep(s, 1);
    }
  }

  lemma FirstColumnsAt8(s: seq<nat>)
    requires s == [77, 12, 115, 33, 82, 82, 33, 115, 12]
    ensures !IsMirror(s, 8, 0)
  {
    assert Left(s, 8, 0) != Right(s, 8, 0);
    NoDeviation(s, 8, 1);
  }

  lemma FirstColumnsAt7(s: seq<nat>)
    requires s == [77, 12, 115, 33, 82, 82, 33, 115, 12]
    ensures !IsMirror(s, 7, 0)
  {
    assert Left(s, 7, 0) != Right(s, 7, 0);
    NoDeviation(s, 7, 2);
  }

  lemma FirstColumnsAt6(s: seq<nat>)
    requires s == [77, 12, 115, 33, 82, 82, 33, 115, 12]
    ensures !IsMirror(s, 6, 0)
  {
    assert Left(s, 6, 0) != Right(s, 6, 0);
    NoDeviation(s, 6, 3);
  }

  lemma FirstColumnsAt5(s: seq<nat>)
    requires s == [77, 12, 115, 33, 82, 82, 33, 115, 12]
    ensures IsMirror(s, 5, 0)
  {
    assert Reflects(s, 5);
    NoDeviation(s, 5, 4);
  }

  lemma FirstColumnsAt4(s: seq<nat>)
    requires s == [77, 12, 115, 33, 82, 82, 33, 115, 12]
    ensures !IsMirror(s, 4, 0)
  {
    assert Left(s, 4, 0) != Right(s, 4, 0);
    NoDeviation(s, 4, 4);
  }

  lemma FirstColumnsAt3(s: seq<nat>)
    requires s == [77, 12, 115, 33, 82, 82, 33, 115, 12]
    ensures !IsMirror(s, 3, 0)
  {
    assert Left(s, 3, 0) != Right(s, 3, 0);
    NoDeviation(s, 3, 3);
  }

  lemma FirstColumnsAt2(s: seq<nat>)
    requires s == [77, 12, 115, 33, 82, 82, 33, 115, 12]
    ensures !IsMirror(s, 2, 0)
  {
    assert Left(s, 2, 0) != Right(s, 2, 0);
    NoDeviation(s, 2, 2);
  }

  lemma FirstColumnsAt1(s: seq<nat>)
    requires s == [77, 12, 115, 33, 82, 82, 33, 115, 12]
    ensures !IsMirror(s, 1, 0)
  {
    assert Left(s, 1, 0) != Right(s, 1, 0);
    NoDeviation(s, 1, 1);
  }

  lemma FirstColumns(s: seq<nat>)
    requires s == [77, 12, 115, 33, 82, 82, 33, 115, 12]
    ensures Mirrors(s, 0) == [5]
  {
    assert MirrorsFrom(s, 0, 9) == [];
    FirstColumnsAt8(s);
    MirrorStep(s, 0, 8);
    assert MirrorsFrom(s, 0, 8) == [];
    FirstColumnsAt7(s);
    MirrorStep(s, 0, 7);
    assert MirrorsFrom(s, 0, 7) == [];
    FirstColumnsAt6(s);
    MirrorStep(s, 0, 6);
    assert MirrorsFrom(s, 0, 6) == [];
    FirstColumnsAt5(s);
    MirrorStep(s, 0, 5);
    assert MirrorsFrom(s, 0, 5) == [5];
    FirstColumnsAt4(s);
    MirrorStep(s, 0, 4);
    assert MirrorsFrom(s, 0, 4) == [5];
    FirstColumnsAt3(s);
    MirrorStep(s, 0, 3);
    assert MirrorsFrom(s, 0, 3) == [5];
    FirstColumnsAt2(s);
    MirrorStep(s, 0, 2);
    assert MirrorsFrom(s, 0, 2) == [5];
    FirstColumnsAt1(s);
    MirrorStep(s, 0, 1);
    assert MirrorsFrom(s, 0, 1) == [5];
  }

  lemma FirstRowsAt6(s: seq<nat>)
    requires s == [205, 180, 259, 259, 180, 204, 181]
    ensures !IsMirror(s, 6, 0)
  {
    assert Left(s, 6, 0) != Right(s, 6, 0);
    NoDeviation(s, 6, 1);
  }

  lemma FirstRowsAt5(s: seq<nat>)
    requires s == [205, 180, 259, 259, 180, 204, 181]
    ensures !IsMirror(s, 5, 0)
  {
    assert Left(s, 5, 0) != Right(s, 5, 0);
    NoDeviation(s, 5, 2);
  }

  lemma FirstRowsAt4(s: seq<nat>)
    requires s == [205, 180, 259, 259, 180, 204, 181]
    ensures !IsMirror(s, 4, 0)
  {
    assert Left(s, 4, 0) != Right(s, 4, 0);
    NoDeviation(s, 4, 3);
  }

  lemma FirstRowsAt3(s: seq<nat>)
    requires s == [205, 180, 259, 259, 180, 204, 181]
    ensures !IsMirror(s, 3, 0)
  {
    assert Left(s, 3, 2) != Right(s, 3, 2);
    NoDeviation(s, 3, 3);
  }

  lemma FirstRowsAt2(s: seq<nat>)
    requires s == [205, 180, 259, 259, 180, 204, 181]
    ensures !IsMirror(s, 2, 0)
  {
    assert Left(s, 2, 0) != Right(s, 2, 0);
    NoDeviation(s, 2, 2);
  }

  lemma FirstRowsAt1(s: seq<nat>)
    requires s == [205, 180, 259, 259, 180, 204, 181]
    ensures !IsMirror(s, 1, 0)
  {
    assert Left(s, 1, 0) != Right(s, 1, 0);
    NoDeviation(s, 1, 1);
  }

  lemma FirstRows(s: seq<nat>)
    requires s == [205, 180, 259, 259, 180, 204, 181]
    ensures Mirrors(s, 0) == []
  {
    assert MirrorsFrom(s, 0, 7) == [];
    FirstRowsAt6(s);
    MirrorStep(s, 0, 6);
    assert MirrorsFrom(s, 0, 6) == [];
    FirstRowsAt5(s);
    MirrorStep(s, 0, 5);
    assert MirrorsFrom(s, 0, 5) == [];
    FirstRowsAt4(s);
    MirrorStep(s, 0, 4);
    assert MirrorsFrom(s, 0, 4) == [];
    FirstRowsAt3(s);
    MirrorStep(s, 0, 3);
    assert MirrorsFrom(s, 0, 3) == [];
    FirstRowsAt2(s);
    MirrorStep(s, 0, 2);
    assert MirrorsFrom(s, 0, 2) == [];
    FirstRowsAt1(s);
    MirrorStep(s, 0, 1);
    assert MirrorsFrom(s, 0, 1) == [];
  }

  lemma SecondColumnsAt8(s: seq<nat>)
    requires s == [91, 24, 60, 60, 25, 67, 60, 60, 103]
    ensures !IsMirror(s, 8, 0)
  {
    assert Left(s, 8, 0) != Right(s, 8, 0);
    NoDeviation(s, 8, 1);
  }

  lemma SecondColumnsAt7(s: seq<nat>)
    requires s == [91, 24, 60, 60, 25, 67, 60, 60, 103]
    ensures !IsMirror(s, 7, 0)
  {
    assert Left(s, 7, 1) != Right(s, 7, 1);
    NoDeviation(s, 7, 2);
  }

  lemma SecondColumnsAt6(s: seq<nat>)
    requires s == [91, 24, 60, 60, 25, 67, 60, 60, 103]
    ensures !IsMirror(s, 6, 0)
  {
    assert Left(s, 6, 0) != Right(s, 6, 0);
    NoDeviation(s, 6, 3);
  }

  lemma SecondColumnsAt5(s: seq<nat>)
    requires s == [91, 24, 60, 60, 25, 67, 60, 60, 103]
    ensures !IsMirror(s, 5, 0)
  {
    assert Left(s, 5, 0) != Right(s, 5, 0);
    NoDeviation(s, 5, 4);
  }

  lemma SecondColumnsAt4(s: seq<nat>)
    requires s == [91, 24, 60, 60, 25, 67, 60, 60, 103]
    ensures !IsMirror(s, 4, 0)
  {
    assert Left(s, 4, 0) != Right(s, 4, 0);
    NoDeviation(s, 4, 4);
  }

  lemma SecondColumnsAt3(s: seq<nat>)
    requires s == [91, 24, 60, 60, 25, 67, 60, 60, 103]
    ensures !IsMirror(s, 3, 0)
  {
    assert Left(s, 3, 1) != Right(s, 3, 1);
    NoDeviation(s, 3, 3);
  }

  lemma SecondColumnsAt2(s: seq<nat>)
    requires s == [91, 24, 60, 60, 25, 67, 60, 60, 103]
    ensures !IsMirror(s, 2, 0)
  {
    assert Left(s, 2, 0) != Right(s, 2, 0);
    NoDeviation(s, 2, 2);
  }

  lemma SecondColumnsAt1(s: seq<nat>)
    requires s == [91, 24, 60, 60, 25, 67, 60, 60, 103]
    ensures !IsMirror(s, 1, 0)
  {
    assert Left(s, 1, 0) != Right(s, 1, 0);
    NoDeviation(s, 1, 1);
  }

  lemma SecondColumns(s: seq<nat>)
    requires s == [91, 24, 60, 60, 25, 67, 60, 60, 103]
    ensures Mirrors(s, 0) == []
  {
    assert MirrorsFrom(s, 0, 9) == [];
    SecondColumnsAt8(s);
    MirrorStep(s, 0, 8);
    assert MirrorsFrom(s, 0, 8) == [];
    SecondColumnsAt7(s);
    MirrorStep(s, 0, 7);
    assert MirrorsFrom(s, 0, 7) == [];
    SecondColumnsAt6(s);
    MirrorStep(s, 0, 6);
    assert MirrorsFrom(s, 0, 6) == [];
    SecondColumnsAt5(s);
    MirrorStep(s, 0, 5);
    assert MirrorsFrom(s, 0, 5) == [];
    SecondColumnsAt4(s);
    MirrorStep(s, 0, 4);
    assert MirrorsFrom(s, 0, 4) == [];
    SecondColumnsAt3(s);
    MirrorStep(s, 0, 3);
    assert MirrorsFrom(s, 0, 3) == [];
    SecondColumnsAt2(s);
    MirrorStep(s, 0, 2);
    assert MirrorsFrom(s, 0, 2) == [];
    SecondColumnsAt1(s);
    MirrorStep(s, 0, 1);
    assert MirrorsFrom(s, 0, 1) == [];
  }

  lemma SecondRowsAt6(s: seq<nat>)
    requires s == [305, 289, 460, 223, 223, 460, 289]
    ensures !IsMirror(s, 6, 0)
  {
    assert Left(s, 6, 0) != Right(s, 6, 0);
    NoDeviation(s, 6, 1);
  }

  lemma SecondRowsAt5(s: seq<nat>)
    requires s == [305, 289, 460, 223, 223, 460, 289]
    ensures !IsMirror(s, 5, 0)
  {
    assert Left(s, 5, 0) != Right(s, 5, 0);
    NoDeviation(s, 5, 2);
  }

  lemma SecondRowsAt4(s: seq<nat>)
    requires s == [305, 289, 460, 223, 223, 460, 289]
    ensures IsMirror(s, 4, 0)
  {
    assert Reflects(s, 4);
    NoDeviation(s, 4, 3);
  }

  lemma SecondRowsAt3(s: seq<nat>)
    requires s == [305, 289, 460, 223, 223, 460, 289]
    ensures !IsMirror(s, 3, 0)
  {
    assert Left(s, 3, 0) != Right(s, 3, 0);
    NoDeviation(s, 3, 3);
  }

  lemma SecondRowsAt2(s: seq<nat>)
    requires s == [305, 289, 460, 223, 223, 460, 289]
    ensures !IsMirror(s, 2, 0)
  {
    assert Left(s, 2, 0) != Right(s, 2, 0);
    NoDeviation(s, 2, 2);
  }

  lemma SecondRowsAt1(s: seq<nat>)
    requires s == [305, 289, 460, 223, 223, 460, 289]
    ensures !IsMirror(s, 1, 0)
  {
    assert Left(s, 1, 0) != Right(s, 1, 0);
    NoDeviation(s, 1, 1);
  }

  lemma SecondRows(s: seq<nat>)
    requires s == [305, 289, 460, 223, 223, 460, 289]
    ensures Mirrors(s, 0) == [4]
  {
    assert MirrorsFrom(s, 0, 7) == [];
    SecondRowsAt6(s);
    MirrorStep(s, 0, 6);
    assert MirrorsFrom(s, 0, 6) == [];
    SecondRowsAt5(s);
    MirrorStep(s, 0, 5);
    assert MirrorsFrom(s, 0, 5) == [];
    SecondRowsAt4(s);
    MirrorStep(s, 0, 4);
    assert MirrorsFrom(s, 0, 4) == [4];
    SecondRowsAt3(s);
    MirrorStep(s, 0, 3);
    assert MirrorsFrom(s, 0, 3) == [4];
    SecondRowsAt2(s);
    MirrorStep(s, 0, 2);
    assert MirrorsFrom(s, 0, 2) == [4];
    SecondRowsAt1(s);
    MirrorStep(s, 0, 1);
    assert MirrorsFrom(s, 0, 1) == [4];
  }

  function FirstExample(): Pattern
  {
    Pattern([77, 12, 115, 33, 82, 82, 33, 115, 12], [205, 180, 259, 259, 180, 204, 181])
  }

  function SecondExample(): Pattern
  {
    Pattern([91, 24, 60, 60, 25, 67, 60, 60, 103], [305, 289, 460, 223, 223, 460, 289])
  }

  /** Without a smudge the first example reflects across a vertical line. */
  lemma FirstMirror(p: Pattern)
    requires p == FirstExample()
    ensures FindMirrors(p, false) == [Vertical(5)]
  {
    FirstColumns(p.cols);
    FirstRows(p.rows);
    assert AsVertical([5]) == [Vertical(5)];
  }

  /** Without a smudge the second example reflects across a horizontal line. */
  lemma SecondMirror(p: Pattern)
    requires p == SecondExample()
    ensures FindMirrors(p, false) == [Horizontal(4)]
  {
    SecondColumns(p.cols);
    SecondRows(p.rows);
    assert AsHorizontal([4]) == [Horizontal(4)];
  }
}
