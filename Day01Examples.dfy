/** The calibration values of the lines in the tests of src/bin/01.rs. Each digit name is
    passed over by the first character where it differs from the line, or because it does
    not fit. */
module Day01Examples {
  import opened Wrappers
  import opened Text
  import opened Day01

  /** Without words, only the decimal characters count. */
  lemma OneAbcTwoExample()
    ensures CalibrationOf("1abc2", false) == 12
  {
    DecimalEnds("1abc2", 0, 4);
  }

  lemma PqrExample()
    ensures CalibrationOf("pqr3stu8vwx", false) == 38
  {
    DecimalEnds("pqr3stu8vwx", 3, 7);
  }

  lemma AlternatingExample()
    ensures CalibrationOf("a1b2c3d4e5f", false) == 15
  {
    DecimalEnds("a1b2c3d4e5f", 1, 9);
  }

  /** A single decimal character is both the first and the last digit. */
  lemma TrebuchetExample()
    ensures CalibrationOf("treb7uchet", false) == 77
  {
    DecimalEnds("treb7uchet", 4, 4);
  }

  lemma TwoAt0()
    ensures DigitAt("two1nine", 0) == Some(Digit(2, true))
  {
    var line := "two1nine";
    assert line[0..3] == "two";
    MatchWord(line, 0, 2);
    SkipWord(line, 0, 1, 0);
    SkipWord(line, 0, 0, 0);
  }

  lemma NineAt4()
    ensures DigitAt("two1nine", 4) == Some(Digit(9, true))
  {
    var line := "two1nine";
    assert line[4..8] == "nine";
    MatchWord(line, 4, 9);
    SkipWord(line, 4, 8, 0);
    SkipWord(line, 4, 7, 0);
    SkipWord(line, 4, 6, 0);
    SkipWord(line, 4, 5, 0);
    SkipWord(line, 4, 4, 0);
    SkipWord(line, 4, 3, 0);
    SkipWord(line, 4, 2, 0);
    SkipWord(line, 4, 1, 0);
    SkipWord(line, 4, 0, 0);
  }

  /** No digit name is spelled out in "ine". */
  lemma NothingAfterNine(pos: nat)
    requires 5 <= pos < 8
    ensures DigitAt("two1nine", pos).None?
  {
    var line := "two1nine";
    SkipWord(line, pos, 9, 0);
    SkipWord(line, pos, 8, 0);
    SkipWord(line, pos, 7, 0);
    SkipWord(line, pos, 6, 0);
    SkipWord(line, pos, 5, 0);
    SkipWord(line, pos, 4, 0);
    SkipWord(line, pos, 3, 0);
    SkipWord(line, pos, 2, 0);
    SkipWord(line, pos, 1, 0);
    SkipWord(line, pos, 0, 0);
  }

  /** Words count alongside the decimal character between them. */
  lemma TwoOneNineExample()
    ensures CalibrationOf("two1nine", true) == 29
  {
    var line := "two1nine";
    TwoAt0();
    NineAt4();
    NothingAfterNine(5);
    NothingAfterNine(6);
    NothingAfterNine(7);
    assert NoneCountedIn(line, 5, 8, true);
    CalibrationFromEnds(line, 0, 4, true);
  }

  lemma EightAt0()
    ensures DigitAt("eighttwothree", 0) == Some(Digit(8, true))
  {
    var line := "eighttwothree";
    assert line[0..5] == "eight";
    MatchWord(line, 0, 8);
    SkipWord(line, 0, 7, 0);
    SkipWord(line, 0, 6, 0);
    SkipWord(line, 0, 5, 0);
    SkipWord(line, 0, 4, 0);
    SkipWord(line, 0, 3, 0);
    SkipWord(line, 0, 2, 0);
    SkipWord(line, 0, 1, 0);
    SkipWord(line, 0, 0, 0);
  }

  /** "three" is found after "two" is passed over at its second character. */
  lemma ThreeAt8()
    ensures DigitAt("eighttwothree", 8) == Some(Digit(3, true))
  {
    var line := "eighttwothree";
    assert line[8..13] == "three";
    MatchWord(line, 8, 3);
    SkipWord(line, 8, 2, 1);
    SkipWord(line, 8, 1, 0);
    SkipWord(line, 8, 0, 0);
  }

  /** No digit name is spelled out in "hree". */
  lemma NothingAfterThree(pos: nat)
    requires 9 <= pos < 13
    ensures DigitAt("eighttwothree", pos).None?
  {
    var line := "eighttwothree";
    SkipWord(line, pos, 9, 0);
    SkipWord(line, pos, 8, 0);
    SkipWord(line, pos, 7, 0);
    SkipWord(line, pos, 6, 0);
    SkipWord(line, pos, 5, 0);
    SkipWord(line, pos, 4, 0);
    SkipWord(line, pos, 3, 0);
    SkipWord(line, pos, 2, 0);
    SkipWord(line, pos, 1, 0);
    SkipWord(line, pos, 0, 0);
  }

  /** Overlapping names: "eight" and "two" share a 't', and both count. */
  lemma EightTwoThreeExample()
    ensures CalibrationOf("eighttwothree", true) == 83
  {
    var line := "eighttwothree";
    EightAt0();
    ThreeAt8();
    NothingAfterThree(9);
    NothingAfterThree(10);
    NothingAfterThree(11);
    NothingAfterThree(12);
    assert NoneCountedIn(line, 9, 13, true);
    CalibrationFromEnds(line, 0, 8, true);
  }

  /** Decimal characters at both ends win over the names between them. */
  lemma FourNineExample()
    ensures CalibrationOf("4nineeightseven2", true) == 42
  {
    CalibrationFromEnds("4nineeightseven2", 0, 15, true);
  }

  /** "zo" starts no name: "zero" differs at its third character. */
  lemma NothingAtZ()
    ensures DigitAt("zoneight234", 0).None?
  {
    var line := "zoneight234";
    SkipWord(line, 0, 9, 0);
    SkipWord(line, 0, 8, 0);
    SkipWord(line, 0, 7, 0);
    SkipWord(line, 0, 6, 0);
    SkipWord(line, 0, 5, 0);
    SkipWord(line, 0, 4, 0);
    SkipWord(line, 0, 3, 0);
    SkipWord(line, 0, 2, 0);
    SkipWord(line, 0, 1, 0);
    SkipWord(line, 0, 0, 2);
  }

  lemma OneAt1()
    ensures DigitAt("zoneight234", 1) == Some(Digit(1, true))
  {
    var line := "zoneight234";
    assert line[1..4] == "one";
    MatchWord(line, 1, 1);
    SkipWord(line, 1, 0, 0);
  }

  /** The name "one" overlaps "eight"; the first counted digit is 1, the last is 4. */
  lemma ZoneEightExample()
    ensures CalibrationOf("zoneight234", true) == 14
  {
    var line := "zoneight234";
    NothingAtZ();
    OneAt1();
    assert NoneCountedIn(line, 0, 1, true);
    CalibrationFromEnds(line, 1, 10, true);
  }
}
