/** Day 7: Camel Cards. A hand of five cards is typed by how its cards repeat; hands are
    ranked by type, then card by card, and each wins its bid times its rank. */
module Day07 {
  import opened Wrappers
  import opened Text
  import opened Sorting

  /** The hand types, weakest first: the derived ordering follows this declaration order. */
  datatype HandType = HighCard | OnePair | TwoPair | ThreeOfAKind | FullHouse | FourOfAKind | FiveOfAKind

  /** The position of a hand type in the declaration, which the derived ordering compares. */
  function Strength(t: HandType): (r: nat)
    ensures r <= 6
  {
    match t
    case HighCard => 0
    case OnePair => 1
    case TwoPair => 2
    case ThreeOfAKind => 3
    case FullHouse => 4
    case FourOfAKind => 5
    case FiveOfAKind => 6
  }

  // ---------------------------------------------------------------------------------------
  // Typing a hand

  /** How many of `cards` equal `x`. */
  function Occurrences(cards: seq<nat>, x: nat): (n: nat)
    ensures n == multiset(cards)[x]
  {
    if cards == [] then 0
    else
      assert cards == cards[..|cards| - 1] + [cards[|cards| - 1]];
      Occurrences(cards[..|cards| - 1], x) + if cards[|cards| - 1] == x then 1 else 0
  }

  lemma OccurrencesStep(cards: seq<nat>, a: nat, x: nat)
    requires a < |cards|
    ensures Occurrences(cards[..a + 1], x) == Occurrences(cards[..a], x) + if cards[a] == x then 1 else 0
  {
    assert cards[..a + 1][..a] == cards[..a];
  }

  /** For each card, how many cards of the hand equal it (itself included). */
  function Matches(cards: seq<nat>): (m: seq<nat>)
    ensures |m| == |cards|
    ensures forall b :: 0 <= b < |cards| ==> m[b] == multiset(cards)[cards[b]]
  {
    seq(|cards|, b requires 0 <= b < |cards| => Occurrences(cards, cards[b]))
  }

  function NatLe(a: nat, b: nat): bool { a <= b }

  lemma NatOrder()
    ensures TotalOrder(NatLe)
  {
  }

  /** The pattern match on the sorted counts. */
  function Classify(sorted: seq<nat>): HandType
    requires |sorted| == 5
  {
    var (a, b, c, d, e) := (sorted[0], sorted[1], sorted[2], sorted[3], sorted[4]);
    if a == 5 && b == 5 && c == 5 && d == 5 && e == 5 then FiveOfAKind
    else if a == 1 && b == 4 && c == 4 && d == 4 && e == 4 then FourOfAKind
    else if a == 2 && b == 2 && c == 3 && d == 3 && e == 3 then FullHouse
    else if c == 3 && d == 3 && e == 3 then ThreeOfAKind
    else if a == 1 && b == 2 && c == 2 && d == 2 && e == 2 then TwoPair
    else if e == 2 then OnePair
    else HighCard
  }

  /** The type of a hand: its match counts, sorted, then classified. */
  function TypeOf(cards: seq<nat>): HandType
    requires |cards| == 5
  {
    NatOrder();
    Classify(Sort(Matches(cards), NatLe))
  }

  /** `HandType::from_cards`: counts each card's matches in nested loops, sorts the counts
      and classifies them. */
  method FromCards(cards: seq<nat>) returns (t: HandType)
    requires |cards| == 5
    ensures t == TypeOf(cards)
  {
    var counts := CountMatches(cards);
    NatOrder();
    t := Classify(Sort(counts, NatLe));
  }

  /** The nested loops of `from_cards`: card `a` adds one to the count of every card `b`
      equal to it. */
  method CountMatches(cards: seq<nat>) returns (counts: seq<nat>)
    requires |cards| == 5
    ensures counts == Matches(cards)
  {
    var matches := new nat[5](_ => 0);
    for a := 0 to 5
      invariant forall j :: 0 <= j < 5 ==> matches[j] == Occurrences(cards[..a], cards[j])
    {
      for b := 0 to 5
        invariant forall j :: 0 <= j < b ==> matches[j] == Occurrences(cards[..a + 1], cards[j])
        invariant forall j :: b <= j < 5 ==> matches[j] == Occurrences(cards[..a], cards[j])
      {
        ghost var before := matches[..];
        OccurrencesStep(cards, a, cards[b]);
        if cards[a] == cards[b] {
          matches[b] := matches[b] + 1;
        }
        assert matches[b] == Occurrences(cards[..a + 1], cards[b]);
        assert forall j :: 0 <= j < 5 && j != b ==> matches[j] == before[j];
      }
    }
    assert cards[..5] == cards;
    counts := matches[..];
  }

  /** The type of a hand depends only on which cards it holds, not on their order. */
  lemma TypeOfPermutation(c1: seq<nat>, c2: seq<nat>)
    requires |c1| == |c2| == 5 && multiset(c1) == multiset(c2)
    ensures TypeOf(c1) == TypeOf(c2)
  {
    var f := x => Occurrences(c1, x);
    ApplyPermutation(f, c1, c2);
    assert Apply(f, c1) == Matches(c1);
    assert Apply(f, c2) == Matches(c2);
    NatOrder();
    SortPermutation(Matches(c1), Matches(c2), NatLe);
  }

  /** Five equal cards make five of a kind. */
  lemma FiveEqual(cards: seq<nat>)
    requires |cards| == 5 && forall i :: 0 <= i < 5 ==> cards[i] == cards[0]
    ensures TypeOf(cards) == FiveOfAKind
  {
    assert cards == [cards[0], cards[0], cards[0], cards[0], cards[0]];
    assert Matches(cards) == [5, 5, 5, 5, 5];
    var five: seq<nat> := [5, 5, 5, 5, 5];
    NatOrder();
    SortSorted(five, NatLe);
  }

  /** The sort of some match counts, given as an already sorted permutation. */
  lemma SortedCounts(counts: seq<nat>, sorted: seq<nat>)
    requires multiset(counts) == multiset(sorted)
    requires forall i :: 0 <= i < |sorted| - 1 ==> sorted[i] <= sorted[i + 1]
    ensures TotalOrder(NatLe) && Sort(counts, NatLe) == sorted
  {
    NatOrder();
    AdjacentSorted(sorted, NatLe);
    SortedUnique(Sort(counts, NatLe), sorted, NatLe);
  }

  /** The type of a hand, from its match counts in sorted order. */
  lemma TypeFromCounts(cards: seq<nat>, sorted: seq<nat>, t: HandType)
    requires |cards| == 5 && multiset(Matches(cards)) == multiset(sorted) && |sorted| == 5
    requires sorted[0] <= sorted[1] <= sorted[2] <= sorted[3] <= sorted[4]
    requires Classify(sorted) == t
    ensures TypeOf(cards) == t
  {
    SortedCounts(Matches(cards), sorted);
  }

  // ---------------------------------------------------------------------------------------
  // Ordering hands

  datatype Hand = Hand(handType: HandType, cards: seq<nat>, bid: nat)

  /** The lexicographic order Rust derives for arrays and slices: the first differing
      card decides, and a proper prefix comes first. */
  predicate LexLess(a: seq<nat>, b: seq<nat>)
  {
    if a == [] then b != []
    else if b == [] then false
    else a[0] < b[0] || (a[0] == b[0] && LexLess(a[1..], b[1..]))
  }

  lemma {:induction false} LexLessAsymmetric(a: seq<nat>, b: seq<nat>)
    ensures !(LexLess(a, b) && LexLess(b, a))
    decreases |a|
  {
    if a != [] && b != [] && a[0] == b[0] {
      LexLessAsymmetric(a[1..], b[1..]);
    }
  }

  lemma {:induction false} LexLessTransitive(a: seq<nat>, b: seq<nat>, c: seq<nat>)
    requires LexLess(a, b) && LexLess(b, c)
    ensures LexLess(a, c)
    decreases |a|
  {
    if a != [] && a[0] == b[0] && b[0] == c[0] {
      LexLessTransitive(a[1..], b[1..], c[1..]);
    }
  }

  lemma {:induction false} LexLessTotal(a: seq<nat>, b: seq<nat>)
    ensures a == b || LexLess(a, b) || LexLess(b, a)
    decreases |a|
  {
    if a != [] && b != [] && a[0] == b[0] {
      LexLessTotal(a[1..], b[1..]);
      assert a == [a[0]] + a[1..] && b == [b[0]] + b[1..];
    }
  }

  /** The derived `Ord` of `Hand`: its fields compared in declaration order, hand type
      first, then the cards, then the bid. */
  predicate HandLess(h: Hand, k: Hand)
  {
    || Strength(h.handType) < Strength(k.handType)
    || (h.handType == k.handType && LexLess(h.cards, k.cards))
    || (h.handType == k.handType && h.cards == k.cards && h.bid < k.bid)
  }

  function HandLe(h: Hand, k: Hand): bool
  {
    h == k || HandLess(h, k)
  }

  lemma StrengthInjective(t: HandType, u: HandType)
    requires Strength(t) == Strength(u)
    ensures t == u
  {
  }

  lemma HandLessAsymmetric(h: Hand, k: Hand)
    ensures !(HandLess(h, k) && HandLess(k, h))
  {
    LexLessAsymmetric(h.cards, k.cards);
  }

  lemma HandLessTransitive(h: Hand, k: Hand, l: Hand)
    requires HandLess(h, k) && HandLess(k, l)
    ensures HandLess(h, l)
  {
    if h.handType == k.handType == l.handType && LexLess(h.cards, k.cards) && LexLess(k.cards, l.cards) {
      LexLessTransitive(h.cards, k.cards, l.cards);
    }
  }

  lemma HandLessTotal(h: Hand, k: Hand)
    ensures h == k || HandLess(h, k) || HandLess(k, h)
  {
    if Strength(h.handType) == Strength(k.handType) {
      StrengthInjective(h.handType, k.handType);
      LexLessTotal(h.cards, k.cards);
    }
  }

  /** The derived ordering of hands is a total order, so sorting them has one result. */
  lemma HandOrder()
    ensures TotalOrder(HandLe)
  {
    forall h, k | HandLe(h, k) && HandLe(k, h) ensures h == k {
      HandLessAsymmetric(h, k);
    }
    forall h, k, l | HandLe(h, k) && HandLe(k, l) ensures HandLe(h, l) {
      if h != k && k != l {
        HandLessTransitive(h, k, l);
      }
    }
    forall h, k ensures HandLe(h, k) || HandLe(k, h) {
      HandLessTotal(h, k);
    }
  }

  // ---------------------------------------------------------------------------------------
  // Parsing

  /** A card's value: '2'-'9' at face value, then T, J, Q, K and A as 10 to 14. */
  function CardValue(c: char): (r: Result<nat>)
    ensures r.Ok? <==> IsCard(c)
    ensures r.Ok? ==> 2 <= r.value <= 14 && CardChar(r.value) == c
  {
    if '2' <= c <= '9' then Ok(c as int - '0' as int)
    else if c == 'T' then Ok(10)
    else if c == 'J' then Ok(11)
    else if c == 'Q' then Ok(12)
    else if c == 'K' then Ok(13)
    else if c == 'A' then Ok(14)
    else Err
  }

  /** One of the card characters 2-9, T, J, Q, K and A. */
  predicate IsCard(c: char)
  {
    '2' <= c <= '9' || c == 'T' || c == 'J' || c == 'Q' || c == 'K' || c == 'A'
  }

  /** The character of a card value. */
  function CardChar(v: nat): char
    requires 2 <= v <= 14
  {
    if v <= 9 then ('0' as int + v) as char
    else "TJQKA"[v - 10]
  }

  lemma CardCharRoundTrip(v: nat)
    requires 2 <= v <= 14
    ensures CardValue(CardChar(v)) == Ok(v)
  {
  }

  /** The values of a string of cards, or `Err` when any character is not a card. */
  function CardsOf(s: String): (r: Result<seq<nat>>)
    ensures r.Ok? ==> |r.value| == |s| && forall i :: 0 <= i < |s| ==> CardValue(s[i]) == Ok(r.value[i])
    ensures r.Err? ==> exists i :: 0 <= i < |s| && CardValue(s[i]).Err?
  {
    if s == [] then Ok([])
    else
      var n := |s| - 1;
      match CardsOf(s[..n])
      case Err => Err
      case Ok(init) =>
        match CardValue(s[n])
        case Err => Err
        case Ok(v) => Ok(init + [v])
  }

  lemma CardsStep(s: String, ix: nat, v: nat)
    requires ix < |s| && CardsOf(s[..ix]).Ok? && CardValue(s[ix]) == Ok(v)
    ensures CardsOf(s[..ix + 1]) == Ok(CardsOf(s[..ix]).value + [v])
  {
    assert s[..ix + 1][..ix] == s[..ix];
  }

  /** `Hand::from_str`: the five cards, a space, then the bid as a `u32`; any other card
      count, a character that is not a card, a missing space or a bad bid is an error. */
  function HandOf(line: String): (r: Result<Hand>)
    ensures r.Ok? ==> ValidHand(r.value)
  {
    match SplitOnce(line, " ")
    case None => Err
    case Some((cardsText, bidText)) =>
      if |cardsText| != 5 then Err
      else
        match CardsOf(cardsText)
        case Err => Err
        case Ok(cards) =>
          match ParseUnsigned(bidText, U32_LIMIT)
          case None => Err
          case Some(bid) => Ok(Hand(TypeOf(cards), cards, bid))
  }

  /** A hand `from_str` can build: five cards of value 2 to 14, a `u32` bid, and the type
      its cards give. */
  predicate ValidHand(h: Hand)
  {
    && |h.cards| == 5
    && (forall i :: 0 <= i < 5 ==> 2 <= h.cards[i] <= 14)
    && h.bid < U32_LIMIT
    && h.handType == TypeOf(h.cards)
  }

  /** The imperative `from_str`: the card loop writes into a five-slot array. */
  method ParseHand(line: String) returns (r: Result<Hand>)
    ensures r == HandOf(line)
  {
    var split := SplitOnce(line, " ");
    if split.None? {
      return Err;
    }
    var (cardsText, bidText) := split.value;
    if |cardsText| != 5 {
      return Err;
    }
    var cards := ReadCards(cardsText);
    if cards.Err? {
      return Err;
    }
    var bid := ParseUnsigned(bidText, U32_LIMIT);
    if bid.None? {
      return Err;
    }
    var handType := FromCards(cards.value);
    r := Ok(Hand(handType, cards.value, bid.value));
  }

  /** The card loop of `from_str`, writing each card's value into a five-slot array. */
  method ReadCards(cardsText: String) returns (r: Result<seq<nat>>)
    requires |cardsText| == 5
    ensures r == CardsOf(cardsText)
  {
    var cards := new nat[5](_ => 0);
    for ix := 0 to 5
      invariant CardsOf(cardsText[..ix]) == Ok(cards[..ix])
    {
      var card := CardValue(cardsText[ix]);
      if card.Err? {
        CardsFail(cardsText, ix);
        return Err;
      }
      CardsStep(cardsText, ix, card.value);
      ghost var done := cards[..ix];
      cards[ix] := card.value;
      assert cards[..ix + 1] == done + [card.value];
    }
    assert cardsText[..5] == cardsText && cards[..5] == cards[..];
    r := Ok(cards[..]);
  }

  lemma CardsFail(s: String, ix: nat)
    requires ix < |s| && CardValue(s[ix]).Err?
    ensures CardsOf(s).Err?
  {
  }

  /** The text of a hand, as the puzzle input writes it. */
  function HandText(h: Hand): String
    requires ValidHand(h)
  {
    seq(5, i requires 0 <= i < 5 => CardChar(h.cards[i])) + " " + Decimal(h.bid)
  }

  /** Parsing the text of a valid hand gives the hand back. */
  lemma HandRoundTrip(h: Hand)
    requires ValidHand(h)
    ensures HandOf(HandText(h)) == Ok(h)
  {
    var cardsText := seq(5, i requires 0 <= i < 5 => CardChar(h.cards[i]));
    assert HandText(h) == cardsText + " " + Decimal(h.bid);
    FindAfter(cardsText, " ", Decimal(h.bid));
    var parsed := CardsOf(cardsText);
    if parsed.Err? {
      var i :| 0 <= i < 5 && CardValue(cardsText[i]).Err?;
      CardCharRoundTrip(h.cards[i]);
    }
    forall i | 0 <= i < 5 ensures parsed.value[i] == h.cards[i] {
      CardCharRoundTrip(h.cards[i]);
    }
    assert parsed.value == h.cards;
    ParseDecimal(h.bid, U32_LIMIT);
  }

  /** `read_hands`: every line parsed in turn, giving up at the first bad one. */
  method ReadHands(input: String) returns (r: Result<seq<Hand>>)
    ensures r == ParseEach(HandOf, Lines(input))
  {
    var lines := Lines(input);
    var hands := [];
    for i := 0 to |lines|
      invariant ParseEach(HandOf, lines[..i]) == Ok(hands)
    {
      var hand := ParseHand(lines[i]);
      if hand.Err? {
        ParseEachFails(HandOf, lines, i);
        return Err;
      }
      ParseEachExtend(HandOf, lines, i, hand.value);
      hands := hands + [hand.value];
    }
    assert lines[..|lines|] == lines;
    r := Ok(hands);
  }

  // ---------------------------------------------------------------------------------------
  // Part one

  /** Each hand's bid times its rank, the weakest hand ranked 1. */
  function Winnings(ranked: seq<Hand>): nat
  {
    if ranked == [] then 0
    else Winnings(ranked[..|ranked| - 1]) + |ranked| * ranked[|ranked| - 1].bid
  }

  /** `part_one`: the hands sorted by `sort_unstable`, then the winnings summed. */
  method PartOne(input: String) returns (r: Option<nat>)
    ensures r.Some? <==> ParseEach(HandOf, Lines(input)).Ok?
    ensures r.Some? ==> TotalOrder(HandLe) && r.value == Winnings(Sort(ParseEach(HandOf, Lines(input)).value, HandLe))
  {
    var hands := ReadHands(input);
    if hands.Err? {
      return None;
    }
    HandOrder();
    var ranked := Sort(hands.value, HandLe);
    r := Some(Winnings(ranked));
  }

  /** The winnings depend only on which hands there are, not on the order of the lines. */
  lemma WinningsOrderFree(hands: seq<Hand>, shuffled: seq<Hand>)
    requires multiset(hands) == multiset(shuffled)
    ensures TotalOrder(HandLe) && Winnings(Sort(hands, HandLe)) == Winnings(Sort(shuffled, HandLe))
  {
    HandOrder();
    SortPermutation(hands, shuffled, HandLe);
  }
}

/** The hand types of the worked example. */
module Day07Examples {
  import opened Sorting
  import opened Day07

  /** "32T3K" is one pair. */
  lemma OnePairExample()
    ensures TypeOf([3, 2, 10, 3, 13]) == OnePair
  {
    var cards: seq<nat> := [3, 2, 10, 3, 13];
    var sorted: seq<nat> := [1, 1, 1, 2, 2];
    OnePairCounts(cards, sorted);
    TypeFromCounts(cards, sorted, OnePair);
  }

  lemma OnePairCounts(cards: seq<nat>, sorted: seq<nat>)
    requires cards == [3, 2, 10, 3, 13] && sorted == [1, 1, 1, 2, 2]
    ensures multiset(Matches(cards)) == multiset(sorted) && Classify(sorted) == OnePair
  {
    OnePairClassified(sorted);
    assert Occurrences(cards, 3) == 2;
    assert Occurrences(cards, 2) == 1;
    assert Occurrences(cards, 10) == 1;
    assert Occurrences(cards, 13) == 1;
    var counts: seq<nat> := [2, 1, 1, 2, 1];
    assert Matches(cards) == counts;
  }

  lemma OnePairClassified(sorted: seq<nat>)
    requires sorted == [1, 1, 1, 2, 2]
    ensures Classify(sorted) == OnePair
  {
  }

  /** "T55J5" is three of a kind. */
  lemma ThreeOfAKindExample()
    ensures TypeOf([10, 5, 5, 11, 5]) == ThreeOfAKind
  {
    var cards: seq<nat> := [10, 5, 5, 11, 5];
    var sorted: seq<nat> := [1, 1, 3, 3, 3];
    ThreeOfAKindCounts(cards, sorted);
    TypeFromCounts(cards, sorted, ThreeOfAKind);
  }

  lemma ThreeOfAKindCounts(cards: seq<nat>, sorted: seq<nat>)
    requires cards == [10, 5, 5, 11, 5] && sorted == [1, 1, 3, 3, 3]
    ensures multiset(Matches(cards)) == multiset(sorted) && Classify(sorted) == ThreeOfAKind
  {
    ThreeOfAKindClassified(sorted);
    assert Occurrences(cards, 10) == 1;
    assert Occurrences(cards, 5) == 3;
    assert Occurrences(cards, 11) == 1;
    var counts: seq<nat> := [1, 3, 3, 1, 3];
    assert Matches(cards) == counts;
  }

  lemma ThreeOfAKindClassified(sorted: seq<nat>)
    requires sorted == [1, 1, 3, 3, 3]
    ensures Classify(sorted) == ThreeOfAKind
  {
  }

  /** "KK677" is two pair. */
  lemma TwoPairExample()
    ensures TypeOf([13, 13, 6, 7, 7]) == TwoPair
  {
    var cards: seq<nat> := [13, 13, 6, 7, 7];
    var sorted: seq<nat> := [1, 2, 2, 2, 2];
    TwoPairCounts(cards, sorted);
    TypeFromCounts(cards, sorted, TwoPair);
  }

  lemma TwoPairCounts(cards: seq<nat>, sorted: seq<nat>)
    requires cards == [13, 13, 6, 7, 7] && sorted == [1, 2, 2, 2, 2]
    ensures multiset(Matches(cards)) == multiset(sorted) && Classify(sorted) == TwoPair
  {
    TwoPairClassified(sorted);
    assert Occurrences(cards, 13) == 2;
    assert Occurrences(cards, 6) == 1;
    assert Occurrences(cards, 7) == 2;
    var counts: seq<nat> := [2, 2, 1, 2, 2];
    assert Matches(cards) == counts;
  }

  lemma TwoPairClassified(sorted: seq<nat>)
    requires sorted == [1, 2, 2, 2, 2]
    ensures Classify(sorted) == TwoPair
  {
  }

  /** The five hands of the worked example, in input order. */
  function ExampleHands(): seq<Hand>
  {
    [ Hand(OnePair, [3, 2, 10, 3, 13], 765),
      Hand(ThreeOfAKind, [10, 5, 5, 11, 5], 684),
      Hand(TwoPair, [13, 13, 6, 7, 7], 28),
      Hand(TwoPair, [13, 10, 11, 11, 10], 220),
      Hand(ThreeOfAKind, [12, 12, 12, 11, 14], 483) ]
  }

  /** Sorting the example ranks KK677 above KTJJT and QQQJA above T55J5, and the
      winnings come to 6440. */
  lemma SortExample()
    ensures TotalOrder(HandLe)
    ensures Sort(ExampleHands(), HandLe) == [ExampleHands()[0], ExampleHands()[3], ExampleHands()[2], ExampleHands()[1], ExampleHands()[4]]
    ensures Winnings(Sort(ExampleHands(), HandLe)) == 6440
  {
    var h := ExampleHands();
    var ranked := [h[0], h[3], h[2], h[1], h[4]];
    HandOrder();
    ExampleRankedInOrder(ranked);
    ExamplePermutation(h, ranked);
    SortSorted(ranked, HandLe);
    SortPermutation(h, ranked, HandLe);
    ExampleWinnings(ranked);
  }

  lemma ExampleRankedInOrder(ranked: seq<Hand>)
    requires ranked == [ExampleHands()[0], ExampleHands()[3], ExampleHands()[2], ExampleHands()[1], ExampleHands()[4]]
    ensures TotalOrder(HandLe) && SortedBy(ranked, HandLe)
  {
    HandOrder();
    assert LexLess([13, 10, 11, 11, 10], [13, 13, 6, 7, 7]);
    assert LexLess([10, 5, 5, 11, 5], [12, 12, 12, 11, 14]);
    AdjacentSorted(ranked, HandLe);
  }

  lemma ExamplePermutation(h: seq<Hand>, ranked: seq<Hand>)
    requires |h| == 5 && ranked == [h[0], h[3], h[2], h[1], h[4]]
    ensures multiset(h) == multiset(ranked)
  {
    assert h == [h[0]] + [h[1]] + [h[2]] + [h[3]] + [h[4]];
    assert ranked == [h[0]] + [h[3]] + [h[2]] + [h[1]] + [h[4]];
  }

  lemma ExampleWinnings(ranked: seq<Hand>)
    requires ranked == [ExampleHands()[0], ExampleHands()[3], ExampleHands()[2], ExampleHands()[1], ExampleHands()[4]]
    ensures Winnings(ranked) == 6440
  {
    assert Winnings(ranked[..1]) == 765 by {
      assert ranked[..1][..0] == [];
    }
    assert Winnings(ranked[..2]) == 765 + 2 * 220 by {
      assert ranked[..2][..1] == ranked[..1];
    }
    assert Winnings(ranked[..3]) == 1205 + 3 * 28 by {
      assert ranked[..3][..2] == ranked[..2];
    }
    assert Winnings(ranked[..4]) == 1289 + 4 * 684 by {
      assert ranked[..4][..3] == ranked[..3];
    }
    assert ranked[..5] == ranked;
  }
}
