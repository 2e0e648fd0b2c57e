/** Mirage Maintenance (`src/bin/09.rs`): extrapolating a sequence of readings one step
    forwards and one step backwards through its table of differences. */
module Day09 {
  import opened Wrappers
  import opened Text

  // ---------------------------------------------------------------------------------------
  // Differences

  /** `Sequence::differences`: the difference between each reading and the one before it. */
  function Differences(s: seq<int>): (d: seq<int>)
    ensures |d| == if s == [] then 0 else |s| - 1
    ensures forall i :: 0 <= i < |d| ==> d[i] == s[i + 1] - s[i]
  {
    if |s| < 2 then [] else Differences(s[..|s| - 1]) + [s[|s| - 1] - s[|s| - 2]]
  }

  /** The readings that start at `first` and then change by the steps in `d`. */
  function Integrate(first: int, d: seq<int>): (s: seq<int>)
    ensures |s| == |d| + 1 && s[0] == first
    decreases |d|
  {
    if d == [] then [first] else [first] + Integrate(first + d[0], d[1..])
  }

  /** Reading `k` of the integrated sequence is the first reading plus the first `k` steps. */
  lemma {:induction false} IntegrateAt(first: int, d: seq<int>, k: nat)
    requires k <= |d|
    ensures Integrate(first, d)[k] == first + Sum(d[..k])
    decreases |d|
  {
    if k > 0 {
      IntegrateAt(first + d[0], d[1..], k - 1);
      assert d[..k] == [d[0]] + d[1..][..k - 1];
      SumCons(d[0], d[1..][..k - 1]);
    }
  }

  function Sum(xs: seq<int>): int
  {
    if xs == [] then 0 else Sum(xs[..|xs| - 1]) + xs[|xs| - 1]
  }

  lemma {:induction false} SumCons(x: int, xs: seq<int>)
    ensures Sum([x] + xs) == x + Sum(xs)
    decreases |xs|
  {
    if xs != [] {
      var n := |xs| - 1;
      assert ([x] + xs)[..|xs|] == [x] + xs[..n];
      SumCons(x, xs[..n]);
    }
  }

  /** Any sequence of the right length whose entries are the steps is the differences. */
  lemma DifferencesAre(s: seq<int>, d: seq<int>)
    requires |s| >= 1 && |d| == |s| - 1
    requires forall i :: 0 <= i < |d| ==> d[i] == s[i + 1] - s[i]
    ensures Differences(s) == d
  {
    var e := Differences(s);
    assert |e| == |d|;
    forall i | 0 <= i < |d|
      ensures e[i] == d[i]
    {
      assert e[i] == s[i + 1] - s[i];
    }
  }

  /** Differences lose only the first reading: integrating them from it rebuilds the
      sequence, and the differences of an integrated sequence are its steps. */
  lemma {:induction false} DifferencesRoundTrip(s: seq<int>, first: int, d: seq<int>)
    ensures s != [] ==> Integrate(s[0], Differences(s)) == s
    ensures Differences(Integrate(first, d)) == d
  {
    if s != [] {
      var r := Integrate(s[0], Differences(s));
      forall k | 0 <= k < |s|
        ensures r[k] == s[k]
      {
        IntegrateAt(s[0], Differences(s), k);
        Telescope(s, k);
      }
    }
    var t := Integrate(first, d);
    forall i | 0 <= i < |d|
      ensures Differences(t)[i] == d[i]
    {
      IntegrateAt(first, d, i);
      IntegrateAt(first, d, i + 1);
      assert d[..i + 1] == d[..i] + [d[i]];
    }
  }

  /** The sum of the first `k` differences is the change from the first reading to
      reading `k`. */
  lemma {:induction false} Telescope(s: seq<int>, k: nat)
    requires k < |s|
    ensures Sum(Differences(s)[..k]) == s[k] - s[0]
  {
    if k > 0 {
      Telescope(s, k - 1);
      assert Differences(s)[..k][..k - 1] == Differences(s)[..k - 1];
    }
  }

  // ---------------------------------------------------------------------------------------
  // Extrapolation

  /** The last reading, or 0 when there is none (`last().unwrap_or(&0)`). */
  function Last(s: seq<int>): int
  {
    if s == [] then 0 else s[|s| - 1]
  }

  /** The first reading, or 0 when there is none (`first().unwrap_or(&0)`). */
  function First(s: seq<int>): int
  {
    if s == [] then 0 else s[0]
  }

  /** Every reading equals `x`. */
  predicate AllEqual(s: seq<int>, x: int)
  {
    forall i :: 0 <= i < |s| ==> s[i] == x
  }

  /** A sequence that is not constant has at least two readings, so its differences are
      shorter: the recursion below ends. */
  lemma NotConstantIsLong(s: seq<int>, x: int)
    requires !AllEqual(s, x) && x == Last(s)
    ensures |s| >= 2 && |Differences(s)| < |s|
  {
  }

  /** `Sequence::next_item`: the last reading when all readings equal it, otherwise the last
      reading plus the next item of the differences. */
  function NextItem(s: seq<int>): int
    decreases |s|
  {
    var last := Last(s);
    if AllEqual(s, last) then last
    else
      NotConstantIsLong(s, last);
      last + NextItem(Differences(s))
  }

  /** `Sequence::prev_item`: the first reading when all readings equal it, otherwise the
      first reading minus the previous item of the differences. */
  function PrevItem(s: seq<int>): int
    decreases |s|
  {
    var first := First(s);
    if AllEqual(s, first) then first
    else
      assert |s| >= 2;
      first - PrevItem(Differences(s))
  }

  /** The differences of a constant sequence are all zero. */
  lemma ConstantDifferences(s: seq<int>, x: int)
    requires AllEqual(s, x)
    ensures AllEqual(Differences(s), 0) && NextItem(Differences(s)) == 0 && PrevItem(Differences(s)) == 0
  {
  }

  /** The recursion holds for every non-empty sequence, constant or not: the early stop
      only saves the work of a table of zeros. */
  lemma NextItemStep(s: seq<int>)
    requires s != []
    ensures NextItem(s) == Last(s) + NextItem(Differences(s))
    ensures PrevItem(s) == First(s) - PrevItem(Differences(s))
  {
    if AllEqual(s, Last(s)) {
      ConstantDifferences(s, Last(s));
    }
    if AllEqual(s, First(s)) {
      ConstantDifferences(s, First(s));
    }
  }

  /** The sum of the last readings of every row of the difference table, computed without
      stopping at a constant row. */
  function SumOfLasts(s: seq<int>): int
    decreases |s|
  {
    if s == [] then 0 else Last(s) + SumOfLasts(Differences(s))
  }

  /** The alternating sum of the first readings of every row of the difference table. */
  function AlternatingFirsts(s: seq<int>): int
    decreases |s|
  {
    if s == [] then 0 else First(s) - AlternatingFirsts(Differences(s))
  }

  /** `next_item` is the sum of the last entries of the rows of the difference table, and
      `prev_item` the alternating sum of their first entries. */
  lemma {:induction false} ExtrapolationByTable(s: seq<int>)
    ensures NextItem(s) == SumOfLasts(s)
    ensures PrevItem(s) == AlternatingFirsts(s)
    decreases |s|
  {
    if s != [] {
      NextItemStep(s);
      ExtrapolationByTable(Differences(s));
    }
  }

  /** The next item continues the difference table: appending it appends the next item of
      the differences to the differences. */
  lemma NextItemExtends(s: seq<int>)
    requires s != []
    ensures Differences(s + [NextItem(s)]) == Differences(s) + [NextItem(Differences(s))]
  {
    var n := NextItem(s);
    NextItemStep(s);
    assert n - Last(s) == NextItem(Differences(s));
    AppendDifferences(s, n);
  }

  /** Appending a reading appends its step from the last one to the differences. */
  lemma AppendDifferences(s: seq<int>, x: int)
    requires s != []
    ensures Differences(s + [x]) == Differences(s) + [x - Last(s)]
  {
    var t := s + [x];
    var d := Differences(s);
    assert |Differences(t)| == |d| + 1;
    forall i | 0 <= i < |d|
      ensures Differences(t)[i] == d[i]
    {
      assert t[i] == s[i] && t[i + 1] == s[i + 1];
    }
  }

  /** The previous item continues the difference table backwards. */
  lemma PrevItemExtends(s: seq<int>)
    requires s != []
    ensures Differences([PrevItem(s)] + s) == [PrevItem(Differences(s))] + Differences(s)
  {
    var p := PrevItem(s);
    NextItemStep(s);
    assert First(s) - p == PrevItem(Differences(s));
    PrependDifferences(p, s);
  }

  /** Prepending a reading prepends its step to the first one to the differences. */
  lemma PrependDifferences(x: int, s: seq<int>)
    requires s != []
    ensures Differences([x] + s) == [First(s) - x] + Differences(s)
  {
    var t := [x] + s;
    var d := Differences(s);
    assert |Differences(t)| == |d| + 1;
    assert t[0] == x && t[1] == s[0];
    assert Differences(t)[0] == s[0] - x;
    forall i | 0 <= i < |d|
      ensures Differences(t)[i + 1] == d[i]
    {
      assert t[i + 1] == s[i] && t[i + 2] == s[i + 1];
    }
  }

  function Negate(s: seq<int>): (r: seq<int>)
    ensures |r| == |s| && forall i :: 0 <= i < |s| ==> r[i] == -s[i]
  {
    seq(|s|, i requires 0 <= i < |s| => -s[i])
  }

  function Reverse(s: seq<int>): (r: seq<int>)
    ensures |r| == |s| && forall i :: 0 <= i < |s| ==> r[i] == s[|s| - 1 - i]
  {
    seq(|s|, i requires 0 <= i < |s| => s[|s| - 1 - i])
  }

  lemma NegateDifferences(s: seq<int>)
    ensures Differences(Negate(s)) == Negate(Differences(s))
  {
    var a, b := Differences(Negate(s)), Negate(Differences(s));
    assert |a| == |b|;
    forall i | 0 <= i < |a|
      ensures a[i] == b[i]
    {
      assert a[i] == Negate(s)[i + 1] - Negate(s)[i];
      assert Differences(s)[i] == s[i + 1] - s[i];
    }
  }

  /** The differences of the reversed readings are the reversed differences, negated. */
  lemma ReverseDifferences(s: seq<int>)
    ensures Differences(Reverse(s)) == Negate(Reverse(Differences(s)))
  {
    var a, b := Differences(Reverse(s)), Negate(Reverse(Differences(s)));
    assert |a| == |b|;
    forall i | 0 <= i < |a|
      ensures a[i] == b[i]
    {
      var d := Differences(s);
      var j := |s| - 2 - i;
      assert Reverse(s)[i] == s[j + 1] && Reverse(s)[i + 1] == s[j];
      assert a[i] == s[j] - s[j + 1];
      assert d[j] == s[j + 1] - s[j];
      assert Reverse(d)[i] == d[j];
    }
  }

  /** Extrapolation commutes with negating every reading. */
  lemma {:induction false} NextItemNegate(s: seq<int>)
    ensures NextItem(Negate(s)) == -NextItem(s)
    decreases |s|
  {
    if s != [] {
      NextItemStep(s);
      NextItemStep(Negate(s));
      NegateDifferences(s);
      NextItemNegate(Differences(s));
    }
  }

  /** Extrapolating backwards is extrapolating the reversed readings forwards. */
  lemma {:induction false} PrevItemIsNextOfReverse(s: seq<int>)
    ensures PrevItem(s) == NextItem(Reverse(s))
    decreases |s|
  {
    if s != [] {
      NextItemStep(s);
      NextItemStep(Reverse(s));
      ReverseDifferences(s);
      NextItemNegate(Reverse(Differences(s)));
      PrevItemIsNextOfReverse(Differences(s));
    }
  }

  /** `n` readings starting at `a` and growing by `d` each time. */
  function Arithmetic(a: int, d: int, n: nat): (s: seq<int>)
    ensures |s| == n && forall i :: 0 <= i < n ==> s[i] == a + i * d
  {
    seq(n, i requires 0 <= i < n => a + i * d)
  }

  /** The differences of an arithmetic sequence are all its step. */
  lemma ArithmeticDifferences(a: int, d: int, n: nat)
    requires n >= 1
    ensures Differences(Arithmetic(a, d, n)) == Arithmetic(d, 0, n - 1)
  {
    var s := Arithmetic(a, d, n);
    var x, y := Differences(s), Arithmetic(d, 0, n - 1);
    assert |x| == |y|;
    forall i | 0 <= i < |x|
      ensures x[i] == y[i]
    {
      assert s[i + 1] == a + (i + 1) * d && s[i] == a + i * d;
    }
  }

  /** Readings that grow by the same step `d` continue with one more step, forwards and
      backwards. */
  lemma ArithmeticNext(a: int, d: int, n: nat)
    requires n >= 2
    ensures NextItem(Arithmetic(a, d, n)) == a + n * d
    ensures PrevItem(Arithmetic(a, d, n)) == a - d
  {
    var s := Arithmetic(a, d, n);
    NextItemStep(s);
    ArithmeticDifferences(a, d, n);
    var t := Arithmetic(d, 0, n - 1);
    assert AllEqual(t, Last(t)) && AllEqual(t, First(t));
    assert Last(s) == a + (n - 1) * d;
  }

  // ---------------------------------------------------------------------------------------
  // Parsing and the two parts

  /** One reading: a decimal `i32`. */
  function ParseReading(word: String): (r: Result<int>)
    ensures r.Ok? ==> I32_MIN <= r.value < I32_LIMIT
  {
    match ParseSigned(word, I32_MIN, I32_LIMIT)
    case Some(v) => Ok(v)
    case None => Err
  }

  /** `Sequence::from_str` as a value: every white-space separated word parsed as an `i32`,
      or an error when any of them is not one. */
  function ParseSequence(line: String): (r: Result<seq<int>>)
    ensures r.Ok? ==> |r.value| == |SplitWhitespace(line)|
  {
    ParseEach(ParseReading, SplitWhitespace(line))
  }

  /** `Sequence::from_str`: the loop over the words, pushing each parsed number. */
  method FromStr(line: String) returns (r: Result<seq<int>>)
    ensures r == ParseSequence(line)
  {
    var words := SplitWhitespace(line);
    var numbers: seq<int> := [];
    var i := 0;
    while i < |words|
      invariant 0 <= i <= |words|
      invariant ParseEach(ParseReading, words[..i]) == Ok(numbers)
    {
      var num := ParseReading(words[i]);
      if num.Err? {
        ParseEachFails(ParseReading, words, i);
        return Err;
      }
      ParseEachExtend(ParseReading, words, i, num.value);
      numbers := numbers + [num.value];
      i := i + 1;
    }
    assert words[..i] == words;
    return Ok(numbers);
  }

  /** The readings written out separated by spaces. */
  function SequenceText(s: seq<int>): String
  {
    Join(seq(|s|, i requires 0 <= i < |s| => SignedDecimal(s[i])), " ")
  }

  /** Writing `i32` readings out and parsing them gives them back. */
  lemma SequenceRoundTrip(s: seq<int>)
    requires forall i :: 0 <= i < |s| ==> I32_MIN <= s[i] < I32_LIMIT
    ensures ParseSequence(SequenceText(s)) == Ok(s)
  {
    var words := seq(|s|, i requires 0 <= i < |s| => SignedDecimal(s[i]));
    forall k, i | 0 <= k < |words| && 0 <= i < |words[k]|
      ensures !IsWhitespace(words[k][i])
    {
      assert words[k] == SignedDecimal(s[k]);
    }
    SplitWhitespaceJoin(words);
    forall k | 0 <= k < |words|
      ensures ParseReading(words[k]) == Ok(s[k])
    {
      SignedDecimalRoundTrip(s[k], I32_MIN, I32_LIMIT);
    }
    ParseEachAll(ParseReading, words, s);
  }

  /** The readings of a line, or none when it does not parse
      (`unwrap_or_else(|_| Sequence::empty())`). */
  function ReadingsOf(line: String): seq<int>
  {
    match ParseSequence(line)
    case Ok(s) => s
    case Err => []
  }

  /** `part_one`: the sum over the lines of the next item of each line's readings. */
  function PartOne(input: String): int
  {
    SumNext(Lines(input))
  }

  function SumNext(lines: seq<String>): int
  {
    if lines == [] then 0 else SumNext(lines[..|lines| - 1]) + NextItem(ReadingsOf(lines[|lines| - 1]))
  }

  /** `part_two`: the sum over the lines of the previous item of each line's readings. */
  function PartTwo(input: String): (r: int)
    ensures r == SumNextReversed(Lines(input))
  {
    PartTwoIsReversedPartOne(Lines(input));
    SumPrev(Lines(input))
  }

  function SumPrev(lines: seq<String>): int
  {
    if lines == [] then 0 else SumPrev(lines[..|lines| - 1]) + PrevItem(ReadingsOf(lines[|lines| - 1]))
  }

  /** The sum of the next items of the reversed readings of each line. */
  function SumNextReversed(lines: seq<String>): int
  {
    if lines == [] then 0
    else SumNextReversed(lines[..|lines| - 1]) + NextItem(Reverse(ReadingsOf(lines[|lines| - 1])))
  }

  /** Part two is part one on every line's readings reversed. */
  lemma {:induction false} PartTwoIsReversedPartOne(lines: seq<String>)
    ensures SumPrev(lines) == SumNextReversed(lines)
  {
    if lines != [] {
      PartTwoIsReversedPartOne(lines[..|lines| - 1]);
      PrevItemIsNextOfReverse(ReadingsOf(lines[|lines| - 1]));
    }
  }

  /** A line that does not parse adds nothing to either part. */
  lemma UnparsedLineAddsNothing(lines: seq<String>, line: String)
    requires ParseSequence(line).Err?
    ensures SumNext(lines + [line]) == SumNext(lines) && SumPrev(lines + [line]) == SumPrev(lines)
  {
    assert (lines + [line])[..|lines|] == lines;
  }
}

/** The sequences used in the tests of `src/bin/09.rs`. */
module Day09Examples {
  import opened Day09

  lemma DifferencesExamples()
    ensures Differences([0, 3, 6, 9, 12, 15]) == [3, 3, 3, 3, 3]
    ensures Differences([1, 3, 6, 10, 15, 21]) == [2, 3, 4, 5, 6]
  {
    DifferencesAre([0, 3, 6, 9, 12, 15], [3, 3, 3, 3, 3]);
    DifferencesAre([1, 3, 6, 10, 15, 21], [2, 3, 4, 5, 6]);
  }

  lemma NextItemExamples()
    ensures NextItem([0, 3, 6, 9, 12, 15]) == 18
    ensures NextItem([1, 3, 6, 10, 15, 21]) == 28
    ensures NextItem([10, 13, 16, 21, 30, 45]) == 68
  {
    ArithmeticNext(0, 3, 6);
    assert [0, 3, 6, 9, 12, 15] == Arithmetic(0, 3, 6);
    ArithmeticNext(2, 1, 5);
    DifferencesAre([1, 3, 6, 10, 15, 21], Arithmetic(2, 1, 5));
    NextItemStep([1, 3, 6, 10, 15, 21]);
    ThirdExample();
  }

  /** The difference table of 10 13 16 21 30 45 down to its arithmetic row. */
  lemma ThirdExample()
    ensures NextItem([10, 13, 16, 21, 30, 45]) == 68 && PrevItem([10, 13, 16, 21, 30, 45]) == 5
  {
    SecondRow();
    ThirdRows();
    NextItemStep([10, 13, 16, 21, 30, 45]);
  }

  lemma ThirdRows()
    ensures Differences([10, 13, 16, 21, 30, 45]) == [3, 3, 5, 9, 15]
    ensures Differences([3, 3, 5, 9, 15]) == Arithmetic(0, 2, 4)
  {
    DifferencesAre([10, 13, 16, 21, 30, 45], [3, 3, 5, 9, 15]);
    DifferencesAre([3, 3, 5, 9, 15], Arithmetic(0, 2, 4));
  }

  /** The second row of that table, 3 3 5 9 15, extends to 23 and, backwards, to 5. */
  lemma SecondRow()
    ensures NextItem([3, 3, 5, 9, 15]) == 23 && PrevItem([3, 3, 5, 9, 15]) == 5
  {
    ArithmeticNext(0, 2, 4);
    ThirdRows();
    NextItemStep([3, 3, 5, 9, 15]);
  }

  lemma PrevItemExamples()
    ensures PrevItem([0, 3, 6, 9, 12, 15]) == -3
    ensures PrevItem([10, 13, 16, 21, 30, 45]) == 5
  {
    ArithmeticNext(0, 3, 6);
    assert [0, 3, 6, 9, 12, 15] == Arithmetic(0, 3, 6);
    ThirdExample();
  }
}
