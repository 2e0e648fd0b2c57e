/** Trebuchet calibration (src/bin/01.rs): each line's value is built from its first and
    last digit, where a digit is a decimal character or, when words count, a digit name
    spelled out in English. Lines are ASCII, so a character index is a byte index. */
module Day01 {
  import opened Wrappers
  import opened Text

  datatype Digit = Digit(value: nat, word: bool)

  const WORD_DIGITS: seq<String> := ["zero", "one", "two", "three", "four", "five", "six", "seven", "eight", "nine"]

  /** `word` is spelled out at `pos` and fits inside the line. */
  predicate WordAt(line: String, pos: nat, word: String)
  {
    pos + |word| <= |line| && line[pos..pos + |word|] == word
  }

  /** The first digit name, from index `from` on, spelled out at `pos`. */
  function FirstWordFrom(line: String, pos: nat, from: nat): (r: Option<nat>)
    requires from <= |WORD_DIGITS|
    ensures r.Some? ==> from <= r.value < |WORD_DIGITS| && WordAt(line, pos, WORD_DIGITS[r.value])
    ensures r.Some? ==> forall v :: from <= v < r.value ==> !WordAt(line, pos, WORD_DIGITS[v])
    ensures r.None? ==> forall v :: from <= v < |WORD_DIGITS| ==> !WordAt(line, pos, WORD_DIGITS[v])
    decreases |WORD_DIGITS| - from
  {
    if from == |WORD_DIGITS| then None
    else if WordAt(line, pos, WORD_DIGITS[from]) then Some(from)
    else FirstWordFrom(line, pos, from + 1)
  }

  /** The digit that starts at `pos`: a decimal character, else the first digit name that
      is spelled out there. */
  function DigitAt(line: String, pos: nat): (r: Option<Digit>)
    requires pos < |line|
    ensures IsDigit(line[pos]) ==> r == Some(Digit(DigitValue(line[pos]), false))
    ensures r.Some? ==> r.value.value < 10 && (r.value.word <==> !IsDigit(line[pos]))
  {
    if IsDigit(line[pos]) then Some(Digit(DigitValue(line[pos]), false))
    else
      match FirstWordFrom(line, pos, 0)
      case None => None
      case Some(v) => Some(Digit(v, true))
  }

  /** A digit name is found exactly when one is spelled out at `pos`, and it is the lowest
      such name. */
  lemma DigitAtWords(line: String, pos: nat)
    requires pos < |line|
    ensures DigitAt(line, pos).None? <==>
              !IsDigit(line[pos]) && forall v :: 0 <= v < |WORD_DIGITS| ==> !WordAt(line, pos, WORD_DIGITS[v])
    ensures DigitAt(line, pos).Some? && DigitAt(line, pos).value.word ==>
              WordAt(line, pos, WORD_DIGITS[DigitAt(line, pos).value.value]) &&
              forall v :: 0 <= v < DigitAt(line, pos).value.value ==> !WordAt(line, pos, WORD_DIGITS[v])
  {
  }

  /** A digit name that does not fit, or that differs from the line at its `k`-th
      character, is passed over. */
  lemma SkipWord(line: String, pos: nat, u: nat, k: nat)
    requires u < |WORD_DIGITS| && k < |WORD_DIGITS[u]|
    requires pos + |WORD_DIGITS[u]| > |line| || line[pos + k] != WORD_DIGITS[u][k]
    ensures FirstWordFrom(line, pos, u) == FirstWordFrom(line, pos, u + 1)
  {
    if pos + |WORD_DIGITS[u]| <= |line| {
      assert line[pos..pos + |WORD_DIGITS[u]|][k] == line[pos + k];
    }
  }

  /** A digit name spelled out at `pos` ends the search. */
  lemma MatchWord(line: String, pos: nat, v: nat)
    requires v < |WORD_DIGITS| && WordAt(line, pos, WORD_DIGITS[v])
    ensures FirstWordFrom(line, pos, v) == Some(v)
  {
  }

  /** `parse_digit`: the digit at `pos`, searching the digit names in order. */
  method ParseDigit(line: String, pos: nat) returns (r: Option<Digit>)
    requires pos < |line|
    ensures r == DigitAt(line, pos)
  {
    var ch := line[pos];
    if IsDigit(ch) {
      return Some(Digit(DigitValue(ch), false));
    }
    var wordValue: Option<nat> := None;
    for value := 0 to |WORD_DIGITS|
      invariant wordValue == None
      invariant FirstWordFrom(line, pos, value) == FirstWordFrom(line, pos, 0)
    {
      var word := WORD_DIGITS[value];
      if pos + |word| > |line| {
        continue;
      }
      if line[pos..pos + |word|] == word {
        wordValue := Some(value);
        break;
      }
    }
    r := match wordValue case None => None case Some(value) => Some(Digit(value, true));
  }

  /** The digits starting in the first `n` positions of the line, in order. */
  function DigitsUpTo(line: String, n: nat): (digits: seq<Digit>)
    requires n <= |line|
    ensures |digits| <= n
    ensures forall i :: 0 <= i < |digits| ==> digits[i].value < 10
  {
    if n == 0 then []
    else
      var init := DigitsUpTo(line, n - 1);
      match DigitAt(line, n - 1)
      case None => init
      case Some(d) => init + [d]
  }

  /** `digits_in_line`. */
  method DigitsInLine(line: String) returns (digits: seq<Digit>)
    ensures digits == DigitsUpTo(line, |line|)
  {
    digits := [];
    for pos := 0 to |line|
      invariant digits == DigitsUpTo(line, pos)
    {
      var digit := ParseDigit(line, pos);
      if digit.Some? {
        digits := digits + [digit.value];
      }
    }
  }

  /** The digits that count: all of them, or only the decimal characters. */
  function Kept(digits: seq<Digit>, includeWords: bool): (kept: seq<Digit>)
    ensures |kept| <= |digits|
  {
    if digits == [] then []
    else
      var init := Kept(digits[..|digits| - 1], includeWords);
      var last := digits[|digits| - 1];
      if includeWords || !last.word then init + [last] else init
  }

  lemma KeptAppend(digits: seq<Digit>, d: Digit, includeWords: bool)
    ensures Kept(digits + [d], includeWords) == Kept(digits, includeWords) + (if includeWords || !d.word then [d] else [])
  {
    assert (digits + [d])[..|digits|] == digits;
  }

  /** `Kept` is a filter: it keeps exactly the digits that count. */
  lemma {:induction false} KeptFilters(digits: seq<Digit>, includeWords: bool)
    ensures forall d :: d in Kept(digits, includeWords) <==> d in digits && (includeWords || !d.word)
  {
    if digits != [] {
      var init := digits[..|digits| - 1];
      KeptFilters(init, includeWords);
      KeptAppend(init, digits[|digits| - 1], includeWords);
      assert digits == init + [digits[|digits| - 1]];
    }
  }

  /** The calibration value of a line's digits: ten times the first digit that counts plus
      the last one, or 0 when none counts. */
  function Calibration(digits: seq<Digit>, includeWords: bool): nat
  {
    var kept := Kept(digits, includeWords);
    if kept == [] then 0 else 10 * kept[0].value + kept[|kept| - 1].value
  }

  function CalibrationOf(line: String, includeWords: bool): nat
  {
    Calibration(DigitsUpTo(line, |line|), includeWords)
  }

  /** `calibration_value`: one pass over the digits, keeping the first and the latest. */
  method CalibrationValue(line: String, includeWords: bool) returns (v: nat)
    ensures v == CalibrationOf(line, includeWords)
  {
    var digits := DigitsInLine(line);
    v := FirstAndLast(digits, includeWords);
  }

  /** The loop of `calibration_value` over the digits already found. */
  method FirstAndLast(digits: seq<Digit>, includeWords: bool) returns (v: nat)
    ensures v == Calibration(digits, includeWords)
  {
    var first: Option<nat> := None;
    var latest := 0;
    ghost var kept := [];
    for i := 0 to |digits|
      invariant kept == Kept(digits[..i], includeWords)
      invariant first.None? <==> kept == []
      invariant kept == [] ==> latest == 0
      invariant kept != [] ==> first == Some(kept[0].value) && latest == kept[|kept| - 1].value
    {
      var digit := digits[i];
      assert digits[..i + 1] == digits[..i] + [digit];
      KeptAppend(digits[..i], digit, includeWords);
      if includeWords || !digit.word {
        latest := digit.value;
        if first.None? {
          first := Some(latest);
        }
        kept := kept + [digit];
      }
    }
    assert digits[..|digits|] == digits;
    v := match first case None => 0 case Some(f) => f * 10 + latest;
  }

  /** A calibration value is a two-digit number at most, and 0 exactly when no digit counts. */
  lemma CalibrationRange(line: String, includeWords: bool)
    ensures CalibrationOf(line, includeWords) <= 99
    ensures Kept(DigitsUpTo(line, |line|), includeWords) == [] ==> CalibrationOf(line, includeWords) == 0
  {
    var digits := DigitsUpTo(line, |line|);
    var kept := Kept(digits, includeWords);
    KeptFilters(digits, includeWords);
    forall i | 0 <= i < |kept| ensures kept[i].value < 10 {
      assert kept[i] in digits;
    }
  }

  /** Only digit names start at positions that hold no decimal character. */
  lemma {:induction false} OnlyWords(line: String, n: nat)
    requires n <= |line|
    requires forall pos :: 0 <= pos < n ==> !IsDigit(line[pos])
    ensures forall i :: 0 <= i < |DigitsUpTo(line, n)| ==> DigitsUpTo(line, n)[i].word
  {
    if n > 0 {
      OnlyWords(line, n - 1);
    }
  }

  /** Without words, digits that are all names keep nothing. */
  lemma {:induction false} NamesDropped(digits: seq<Digit>)
    requires forall i :: 0 <= i < |digits| ==> digits[i].word
    ensures Kept(digits, false) == []
  {
    if digits != [] {
      NamesDropped(digits[..|digits| - 1]);
    }
  }

  /** Without words, a line with no decimal character has value 0. */
  lemma WordsIgnored(line: String)
    requires forall pos :: 0 <= pos < |line| ==> !IsDigit(line[pos])
    ensures CalibrationOf(line, false) == 0
  {
    OnlyWords(line, |line|);
    NamesDropped(DigitsUpTo(line, |line|));
  }

  /** The digit at `pos` exists and counts. */
  predicate Counted(line: String, pos: nat, includeWords: bool)
    requires pos < |line|
  {
    DigitAt(line, pos).Some? && (includeWords || !DigitAt(line, pos).value.word)
  }

  /** Without words, a position counts exactly when it holds a decimal character. */
  lemma CountedWithoutWords(line: String, pos: nat)
    requires pos < |line|
    ensures Counted(line, pos, false) <==> IsDigit(line[pos])
  {
  }

  /** No position in `lo..hi` counts. */
  predicate NoneCountedIn(line: String, lo: nat, hi: nat, includeWords: bool)
    requires hi <= |line|
    decreases hi
  {
    hi <= lo || (!Counted(line, hi - 1, includeWords) && NoneCountedIn(line, lo, hi - 1, includeWords))
  }

  lemma {:induction false} NoneCountedInMeans(line: String, lo: nat, hi: nat, includeWords: bool)
    requires hi <= |line|
    ensures NoneCountedIn(line, lo, hi, includeWords) <==> forall q :: lo <= q < hi ==> !Counted(line, q, includeWords)
    decreases hi
  {
    if hi > lo {
      NoneCountedInMeans(line, lo, hi - 1, includeWords);
    }
  }

  /** Adding position `n - 1` keeps the old digits that count and appends its own when it
      counts. */
  lemma KeptUpToStep(line: String, n: nat, includeWords: bool)
    requires 0 < n <= |line|
    ensures Kept(DigitsUpTo(line, n), includeWords) ==
              Kept(DigitsUpTo(line, n - 1), includeWords) +
              (if Counted(line, n - 1, includeWords) then [DigitAt(line, n - 1).value] else [])
  {
    match DigitAt(line, n - 1)
    case None =>
    case Some(d) => KeptAppend(DigitsUpTo(line, n - 1), d, includeWords);
  }

  /** No position before `n` counts, so no digit is kept. */
  lemma {:induction false} NoneCounted(line: String, n: nat, includeWords: bool)
    requires n <= |line|
    requires NoneCountedIn(line, 0, n, includeWords)
    ensures Kept(DigitsUpTo(line, n), includeWords) == []
  {
    if n > 0 {
      NoneCounted(line, n - 1, includeWords);
      KeptUpToStep(line, n, includeWords);
    }
  }

  /** Once a digit is kept first, it stays first however far the line is read. */
  lemma {:induction false} FirstStaysFirst(line: String, n: nat, p: nat, d: Digit, includeWords: bool)
    requires p < n <= |line|
    requires Kept(DigitsUpTo(line, p + 1), includeWords) == [d]
    ensures Kept(DigitsUpTo(line, n), includeWords) != []
    ensures Kept(DigitsUpTo(line, n), includeWords)[0] == d
  {
    if n > p + 1 {
      FirstStaysFirst(line, n - 1, p, d, includeWords);
      KeptHeadStable(line, n, includeWords);
    }
  }

  /** When `p` is the first position that counts, its digit is all that is kept up to it. */
  lemma KeptFirstAt(line: String, p: nat, includeWords: bool)
    requires p < |line|
    requires Counted(line, p, includeWords)
    requires NoneCountedIn(line, 0, p, includeWords)
    ensures Kept(DigitsUpTo(line, p + 1), includeWords) == [DigitAt(line, p).value]
  {
    NoneCounted(line, p, includeWords);
    KeptUpToStep(line, p + 1, includeWords);
  }

  /** Later positions never change the first digit kept. */
  lemma KeptHeadStable(line: String, n: nat, includeWords: bool)
    requires 0 < n <= |line|
    requires Kept(DigitsUpTo(line, n - 1), includeWords) != []
    ensures Kept(DigitsUpTo(line, n), includeWords) != []
    ensures Kept(DigitsUpTo(line, n), includeWords)[0] == Kept(DigitsUpTo(line, n - 1), includeWords)[0]
  {
    KeptUpToStep(line, n, includeWords);
  }

  /** The last digit kept is the one at the last position that counts. */
  lemma {:induction false} LastCounted(line: String, n: nat, p: nat, includeWords: bool)
    requires p < n <= |line|
    requires Counted(line, p, includeWords)
    requires NoneCountedIn(line, p + 1, n, includeWords)
    ensures Kept(DigitsUpTo(line, n), includeWords) != []
    ensures Kept(DigitsUpTo(line, n), includeWords)[|Kept(DigitsUpTo(line, n), includeWords)| - 1] ==
              DigitAt(line, p).value
  {
    ghost var before := Kept(DigitsUpTo(line, n - 1), includeWords);
    KeptUpToStep(line, n, includeWords);
    if n > p + 1 {
      LastCounted(line, n - 1, p, includeWords);
      assert !Counted(line, n - 1, includeWords);
      assert Kept(DigitsUpTo(line, n), includeWords) == before;
    } else {
      assert Kept(DigitsUpTo(line, n), includeWords) == before + [DigitAt(line, p).value];
    }
  }

  /** A line's value is read off its first and last positions that count. */
  lemma CalibrationFromEnds(line: String, first: nat, last: nat, includeWords: bool)
    requires first <= last < |line|
    requires Counted(line, first, includeWords) && Counted(line, last, includeWords)
    requires NoneCountedIn(line, 0, first, includeWords)
    requires NoneCountedIn(line, last + 1, |line|, includeWords)
    ensures CalibrationOf(line, includeWords) ==
              10 * DigitAt(line, first).value.value + DigitAt(line, last).value.value
  {
    var kept := Kept(DigitsUpTo(line, |line|), includeWords);
    var firstDigit := DigitAt(line, first).value;
    var lastDigit := DigitAt(line, last).value;
    assert kept != [] && kept[0] == firstDigit by {
      KeptFirstAt(line, first, includeWords);
      FirstStaysFirst(line, |line|, first, firstDigit, includeWords);
    }
    assert kept[|kept| - 1] == lastDigit by {
      LastCounted(line, |line|, last, includeWords);
    }
  }

  /** Without words, a line's value is read off its first and last decimal characters. */
  lemma DecimalEnds(line: String, first: nat, last: nat)
    requires first <= last < |line|
    requires IsDigit(line[first]) && IsDigit(line[last])
    requires forall q :: 0 <= q < first ==> !IsDigit(line[q])
    requires forall q :: last < q < |line| ==> !IsDigit(line[q])
    ensures CalibrationOf(line, false) == 10 * DigitValue(line[first]) + DigitValue(line[last])
  {
    forall q | 0 <= q < |line| && !IsDigit(line[q]) ensures !Counted(line, q, false) {
      CountedWithoutWords(line, q);
    }
    NoneCountedInMeans(line, 0, first, false);
    NoneCountedInMeans(line, last + 1, |line|, false);
    CalibrationFromEnds(line, first, last, false);
  }

  /** `part_one` and `part_two`: the sum of the lines' calibration values. */
  function Total(lines: seq<String>, includeWords: bool): nat
  {
    if lines == [] then 0 else Total(lines[..|lines| - 1], includeWords) + CalibrationOf(lines[|lines| - 1], includeWords)
  }

  lemma {:induction false} TotalBound(lines: seq<String>, includeWords: bool)
    ensures Total(lines, includeWords) <= 99 * |lines|
  {
    if lines != [] {
      TotalBound(lines[..|lines| - 1], includeWords);
      CalibrationRange(lines[|lines| - 1], includeWords);
    }
  }

  /** `part_one`: the calibration values read from decimal digits only, at most 99 a line. */
  function PartOne(input: String): (r: nat)
    ensures r <= 99 * |Lines(input)|
  {
    TotalBound(Lines(input), false);
    Total(Lines(input), false)
  }

  /** `part_two`: the calibration values read from digits and spelled-out names, at most 99
      a line. */
  function PartTwo(input: String): (r: nat)
    ensures r <= 99 * |Lines(input)|
  {
    TotalBound(Lines(input), true);
    Total(Lines(input), true)
  }
}
