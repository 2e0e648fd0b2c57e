/** Day 4: scratchcards. A card lists winning numbers and the numbers it holds; it scores
    one point for its first match and doubles for every further match. */
module Day04 {
  import opened Wrappers
  import opened Text
  import opened Divisibility

  datatype Card = Card(cardNo: nat, winners: seq<nat>, numbers: seq<nat>)

  // ---------------------------------------------------------------------------------------
  // Scoring

  /** `score << 1` on a `u32`: the bit shifted out of the top is lost. */
  function Doubled(score: nat): (r: nat)
    ensures r < U32_LIMIT
  {
    (score * 2) % U32_LIMIT
  }

  /** `score`: the fold over the card's numbers, where a winning number turns a score of
      0 into 1 and doubles any other score. */
  function ScoreOf(winners: seq<nat>, numbers: seq<nat>): nat
  {
    if numbers == [] then 0
    else
      var score := ScoreOf(winners, numbers[..|numbers| - 1]);
      if numbers[|numbers| - 1] !in winners then score
      else if score == 0 then 1
      else Doubled(score)
  }

  function Score(card: Card): nat
  {
    ScoreOf(card.winners, card.numbers)
  }

  /** How many of the held numbers are winners, counting a repeated number each time. */
  function Matches(winners: seq<nat>, numbers: seq<nat>): (m: nat)
    ensures m <= |numbers|
  {
    if numbers == [] then 0
    else Matches(winners, numbers[..|numbers| - 1]) + (if numbers[|numbers| - 1] in winners then 1 else 0)
  }

  /** No match happens exactly when no held number is a winner. */
  lemma {:induction false} MatchesZero(winners: seq<nat>, numbers: seq<nat>)
    ensures Matches(winners, numbers) == 0 <==> forall k :: 0 <= k < |numbers| ==> numbers[k] !in winners
    decreases |numbers|
  {
    if numbers != [] {
      var init := numbers[..|numbers| - 1];
      MatchesZero(winners, init);
      assert forall k :: 0 <= k < |init| ==> init[k] == numbers[k];
    }
  }

  /** The score in closed form: with `m` matches it is 2^(m-1), except that the 32-bit
      shift loses the point after 32 doublings, after which the count starts again at 1;
      so the score repeats with period 33. */
  lemma {:induction false} ScoreCycle(winners: seq<nat>, numbers: seq<nat>)
    ensures var k := Matches(winners, numbers) % 33;
            ScoreOf(winners, numbers) == if k == 0 then 0 else Pow2(k - 1)
    decreases |numbers|
  {
    if numbers != [] {
      var init := numbers[..|numbers| - 1];
      ScoreCycle(winners, init);
      var k := Matches(winners, init) % 33;
      if numbers[|numbers| - 1] in winners && k > 0 {
        DoubledPower(k);
      }
    }
  }

  /** Doubling 2^(k-1) in 32 bits gives 2^k, until the point falls off the top at k = 32. */
  lemma DoubledPower(k: nat)
    requires 1 <= k <= 32
    ensures Doubled(Pow2(k - 1)) == if k < 32 then Pow2(k) else 0
  {
    Pow2ThirtyTwo();
    if k < 32 {
      Pow2Monotone(k, 31);
      assert Pow2(k - 1) * 2 == Pow2(k) < U32_LIMIT;
    } else {
      assert Pow2(k - 1) * 2 == U32_LIMIT;
    }
  }

  /** Up to 32 matches, the score is 2^(m-1) points, and no points without a match. */
  lemma ScoreDoubles(card: Card)
    requires Matches(card.winners, card.numbers) <= 32
    ensures var m := Matches(card.winners, card.numbers);
            Score(card) == if m == 0 then 0 else Pow2(m - 1)
  {
    ScoreCycle(card.winners, card.numbers);
  }

  /** A card none of whose numbers wins scores nothing. */
  lemma NoWinnersScoreZero(card: Card)
    requires forall k :: 0 <= k < |card.numbers| ==> card.numbers[k] !in card.winners
    ensures Score(card) == 0
  {
    MatchesZero(card.winners, card.numbers);
    ScoreCycle(card.winners, card.numbers);
  }

  /** A score is never more than 2^31. */
  lemma ScoreBound(card: Card)
    ensures Score(card) <= Pow2(31)
  {
    var k := Matches(card.winners, card.numbers) % 33;
    ScoreCycle(card.winners, card.numbers);
    if k > 0 {
      Pow2Monotone(k - 1, 31);
    }
  }

  // ---------------------------------------------------------------------------------------
  // Parsing

  /** `str::parse::<u32>`. */
  function U32Of(s: String): (r: Result<nat>)
    ensures r.Ok? ==> r.value < U32_LIMIT
  {
    match ParseUnsigned(s, U32_LIMIT)
    case None => Err
    case Some(v) => Ok(v)
  }

  /** The numbers of a white-space separated list, or `Err` when any word is not a `u32`. */
  function NumbersOf(text: String): Result<seq<nat>>
  {
    ParseEach(U32Of, SplitWhitespace(text))
  }

  /** `parse_number_list`: pushes each word's value in turn, giving up on the first word
      that is not a number. */
  method ParseNumberList(text: String) returns (r: Result<seq<nat>>)
    ensures r == NumbersOf(text)
  {
    var words := SplitWhitespace(text);
    var list := [];
    for i := 0 to |words|
      invariant ParseEach(U32Of, words[..i]) == Ok(list)
    {
      var number := U32Of(words[i]);
      if number.Err? {
        ParseEachFails(U32Of, words, i);
        return Err;
      }
      ParseEachExtend(U32Of, words, i, number.value);
      list := list + [number.value];
    }
    assert words[..|words|] == words;
    r := Ok(list);
  }

  function NumbersText(values: seq<nat>): String
  {
    Join(seq(|values|, k requires 0 <= k < |values| => Decimal(values[k])), " ")
  }

  /** `u32` values written with single spaces between them parse back to the same list. */
  lemma NumbersRoundTrip(values: seq<nat>)
    requires forall k :: 0 <= k < |values| ==> values[k] < U32_LIMIT
    ensures NumbersOf(NumbersText(values)) == Ok(values)
  {
    var words := seq(|values|, k requires 0 <= k < |values| => Decimal(values[k]));
    forall k, i | 0 <= k < |words| && 0 <= i < |words[k]| ensures !IsWhitespace(words[k][i]) {
      assert IsDigit(words[k][i]);
    }
    SplitWhitespaceJoin(words);
    forall k | 0 <= k < |words| ensures U32Of(words[k]) == Ok(values[k]) {
      ParseDecimal(values[k], U32_LIMIT);
    }
    ParseEachAll(U32Of, words, values);
  }

  /** The part after "Card <n>: ": the winners and the held numbers, on either side of " | ". */
  function CardBody(cardNo: nat, allNumbers: String): Result<Card>
  {
    match SplitOnce(allNumbers, " | ")
    case None => Err
    case Some((winnersText, numbersText)) =>
      match NumbersOf(winnersText)
      case Err => Err
      case Ok(winners) =>
        match NumbersOf(numbersText)
        case Err => Err
        case Ok(numbers) => Ok(Card(cardNo, winners, numbers))
  }

  /** `Scratchcard::from_str`: "Card", then the card number with any padding trimmed, ": ",
      and the two lists of numbers separated by " | ". */
  function CardOf(line: String): Result<Card>
  {
    match SplitOnce(line, ": ")
    case None => Err
    case Some((description, allNumbers)) =>
      match StripPrefix(description, "Card ")
      case None => Err
      case Some(cardNoText) =>
        match U32Of(Trim(cardNoText))
        case Err => Err
        case Ok(cardNo) => CardBody(cardNo, allNumbers)
  }

  method ParseCard(line: String) returns (r: Result<Card>)
    ensures r == CardOf(line)
  {
    var halves := SplitOnce(line, ": ");
    if halves.None? {
      return Err;
    }
    var (description, allNumbers) := halves.value;
    var cardNoText := StripPrefix(description, "Card ");
    if cardNoText.None? {
      return Err;
    }
    var cardNo := U32Of(Trim(cardNoText.value));
    if cardNo.Err? {
      return Err;
    }
    var lists := SplitOnce(allNumbers, " | ");
    if lists.None? {
      return Err;
    }
    var (winnersText, numbersText) := lists.value;
    var winners := ParseNumberList(winnersText);
    if winners.Err? {
      return Err;
    }
    var numbers := ParseNumberList(numbersText);
    if numbers.Err? {
      return Err;
    }
    r := Ok(Card(cardNo.value, winners.value, numbers.value));
  }

  /** The header "Card", padding spaces, the card number and ": " give the card number
      whatever the padding, and leave the rest to the number lists. */
  lemma CardHeader(pad: String, cardNo: nat, rest: String)
    requires forall i :: 0 <= i < |pad| ==> pad[i] == ' '
    requires cardNo < U32_LIMIT
    ensures CardOf("Card " + pad + Decimal(cardNo) + ": " + rest) == CardBody(cardNo, rest)
  {
    var digits := Decimal(cardNo);
    var cardNoText := pad + digits;
    assert ':' !in cardNoText by {
      assert ':' !in pad;
      DigitsLackColon(digits);
    }
    assert "Card " + pad + digits == "Card " + cardNoText;
    HeaderSplit("Card ", cardNoText, rest);
    assert IsDigit(digits[0]) && IsDigit(digits[|digits| - 1]);
    TrimPadded(pad, digits);
    ParseDecimal(cardNo, U32_LIMIT);
  }

  /** A header without a colon is split off at ": " and its fixed prefix stripped. */
  lemma HeaderSplit(prefix: String, text: String, rest: String)
    requires ':' !in prefix && ':' !in text
    ensures SplitOnce(prefix + text + ": " + rest, ": ") == Some((prefix + text, rest))
    ensures StripPrefix(prefix + text, prefix) == Some(text)
  {
    FindAfter(prefix + text, ": ", rest);
    assert (prefix + text)[..|prefix|] == prefix && (prefix + text)[|prefix|..] == text;
  }

  lemma DigitsLackColon(digits: String)
    requires AllDigits(digits)
    ensures ':' !in digits
  {
  }

  /** A card written as its game text does: header, winners, " | ", then the held numbers. */
  function CardText(card: Card): String
  {
    "Card " + Decimal(card.cardNo) + ": " + NumbersText(card.winners) + " | " + NumbersText(card.numbers)
  }

  /** The winners' text never holds '|' and never ends with a space. */
  lemma NumbersTextShape(values: seq<nat>)
    ensures '|' !in NumbersText(values)
    ensures var t := NumbersText(values); t == [] || IsDigit(t[|t| - 1])
  {
    var words := seq(|values|, k requires 0 <= k < |values| => Decimal(values[k]));
    forall k | 0 <= k < |words| ensures '|' !in words[k] {
      assert forall i :: 0 <= i < |words[k]| ==> IsDigit(words[k][i]);
    }
    NotInJoin(words, " ", '|');
    JoinEndsWithLast(words);
  }

  lemma {:induction false} JoinEndsWithLast(words: seq<String>)
    requires forall k :: 0 <= k < |words| ==> |words[k]| > 0 && AllDigits(words[k])
    ensures var t := Join(words, " "); t == [] || IsDigit(t[|t| - 1])
    decreases |words|
  {
    if |words| > 1 {
      JoinEndsWithLast(words[1..]);
    }
  }

  /** A card with `u32` values written out parses back to the same card. */
  lemma CardRoundTrip(card: Card)
    requires card.cardNo < U32_LIMIT
    requires forall k :: 0 <= k < |card.winners| ==> card.winners[k] < U32_LIMIT
    requires forall k :: 0 <= k < |card.numbers| ==> card.numbers[k] < U32_LIMIT
    ensures CardOf(CardText(card)) == Ok(card)
  {
    var winnersText := NumbersText(card.winners);
    var numbersText := NumbersText(card.numbers);
    var rest := winnersText + " | " + numbersText;
    assert CardText(card) == "Card " + [] + Decimal(card.cardNo) + ": " + rest;
    CardHeader([], card.cardNo, rest);
    NumbersTextShape(card.winners);
    FindAfterSecond(winnersText, " | ", numbersText);
    NumbersRoundTrip(card.winners);
    NumbersRoundTrip(card.numbers);
  }

  // ---------------------------------------------------------------------------------------
  // Part one

  /** `part_one`: the total score of the lines that parse as cards, skipping the others. */
  function TotalScore(lines: seq<String>): nat
  {
    SumParsed(CardOf, Score, lines)
  }

  /** No card scores more than 2^31, so the total is at most that per line. */
  lemma TotalScoreBound(lines: seq<String>)
    ensures TotalScore(lines) <= |lines| * Pow2(31)
  {
    forall k | 0 <= k < |lines| && CardOf(lines[k]).Ok?
      ensures Score(CardOf(lines[k]).value) <= Pow2(31)
    {
      ScoreBound(CardOf(lines[k]).value);
    }
    SumParsedBound(CardOf, Score, lines, Pow2(31));
  }

  /** `part_one`: the total score of the cards, at most 2^31 a line. */
  function PartOne(input: String): (r: nat)
    ensures r <= |Lines(input)| * Pow2(31)
  {
    TotalScoreBound(Lines(input));
    TotalScore(Lines(input))
  }
}
