/** The scores of the cards in the tests of src/bin/04.rs. */
module Day04Examples {
  import opened Day04

  lemma ScoreStep(winners: seq<nat>, numbers: seq<nat>, k: nat)
    requires k < |numbers|
    ensures ScoreOf(winners, numbers[..k + 1]) ==
              var score := ScoreOf(winners, numbers[..k]);
              if numbers[k] !in winners then score else if score == 0 then 1 else Doubled(score)
  {
    assert numbers[..k + 1][..k] == numbers[..k];
  }

  /** Eight held numbers of which the first, second, fifth and seventh win: 1, 2, 4, then 8
      points. */
  lemma FourHits(winners: seq<nat>, numbers: seq<nat>)
    requires |numbers| == 8
    requires numbers[0] in winners && numbers[1] in winners && numbers[2] !in winners && numbers[3] !in winners
    requires numbers[4] in winners && numbers[5] !in winners && numbers[6] in winners && numbers[7] !in winners
    ensures ScoreOf(winners, numbers) == 8
  {
    assert numbers[..0] == [];
    ScoreStep(winners, numbers, 0);
    ScoreStep(winners, numbers, 1);
    ScoreStep(winners, numbers, 2);
    ScoreStep(winners, numbers, 3);
    ScoreStep(winners, numbers, 4);
    ScoreStep(winners, numbers, 5);
    ScoreStep(winners, numbers, 6);
    ScoreStep(winners, numbers, 7);
    assert numbers[..8] == numbers;
  }

  /** Eight held numbers of which the sixth and eighth win: 1, then 2 points. */
  lemma TwoHits(winners: seq<nat>, numbers: seq<nat>)
    requires |numbers| == 8
    requires numbers[0] !in winners && numbers[1] !in winners && numbers[2] !in winners && numbers[3] !in winners
    requires numbers[4] !in winners && numbers[5] in winners && numbers[6] !in winners && numbers[7] in winners
    ensures ScoreOf(winners, numbers) == 2
  {
    assert numbers[..0] == [];
    ScoreStep(winners, numbers, 0);
    ScoreStep(winners, numbers, 1);
    ScoreStep(winners, numbers, 2);
    ScoreStep(winners, numbers, 3);
    ScoreStep(winners, numbers, 4);
    ScoreStep(winners, numbers, 5);
    ScoreStep(winners, numbers, 6);
    ScoreStep(winners, numbers, 7);
    assert numbers[..8] == numbers;
  }

  /** Card 1 holds four winners, 83, 86, 17 and 48. */
  lemma CardOneScore()
    ensures Score(Card(1, [41, 48, 83, 86, 17], [83, 86, 6, 31, 17, 9, 48, 53])) == 8
  {
    FourHits([41, 48, 83, 86, 17], [83, 86, 6, 31, 17, 9, 48, 53]);
  }

  /** Card 3 holds two winners, 21 and 1. */
  lemma CardThreeScore()
    ensures Score(Card(3, [1, 21, 53, 59, 44], [69, 82, 63, 72, 16, 21, 14, 1])) == 2
  {
    TwoHits([1, 21, 53, 59, 44], [69, 82, 63, 72, 16, 21, 14, 1]);
  }

  /** Card 6 holds no winner and scores nothing. */
  lemma CardSixScore()
    ensures Score(Card(6, [31, 18, 13, 56, 72], [74, 77, 10, 23, 35, 67, 36, 11])) == 0
  {
    var card := Card(6, [31, 18, 13, 56, 72], [74, 77, 10, 23, 35, 67, 36, 11]);
    NoWinnersScoreZero(card);
  }
}
