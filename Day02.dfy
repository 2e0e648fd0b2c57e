/** Cube conundrum (src/bin/02.rs): a game is a list of draws of red, green and blue cubes
    from a bag; a game is possible for a bag when no draw shows more cubes of a colour than
    the bag holds, and its power is the product of the least cubes of each colour that make
    it possible. */
module Day02 {
  import opened Wrappers
  import opened Text
  import opened Divisibility

  datatype Draw = Draw(red: nat, green: nat, blue: nat)

  datatype Game = Game(id: nat, draws: seq<Draw>)

  datatype Colour = Red | Green | Blue

  function Count(d: Draw, c: Colour): nat
  {
    match c
    case Red => d.red
    case Green => d.green
    case Blue => d.blue
  }

  /** `Draw::power`. */
  function Power(d: Draw): nat
  {
    MulNonnegative(d.red, d.green);
    MulNonnegative(d.red * d.green, d.blue);
    d.red * d.green * d.blue
  }

  /** No colour of `d` exceeds that colour of `bag`. */
  predicate Fits(d: Draw, bag: Draw)
  {
    d.red <= bag.red && d.green <= bag.green && d.blue <= bag.blue
  }

  function Max(a: nat, b: nat): (m: nat)
    ensures m >= a && m >= b && (m == a || m == b)
  {
    if a <= b then b else a
  }

  /** `Game::maximums`: the colour-by-colour maximum of the draws, folded from (0, 0, 0). */
  function Maximums(draws: seq<Draw>): (m: Draw)
    ensures forall i :: 0 <= i < |draws| ==> Fits(draws[i], m)
    ensures draws == [] ==> m == Draw(0, 0, 0)
  {
    if draws == [] then Draw(0, 0, 0)
    else
      var a := Maximums(draws[..|draws| - 1]);
      var b := draws[|draws| - 1];
      Draw(Max(a.red, b.red), Max(a.green, b.green), Max(a.blue, b.blue))
  }

  /** The maximums are the least draw that every draw fits into. */
  lemma {:induction false} MaximumsLeast(draws: seq<Draw>, bag: Draw)
    requires forall i :: 0 <= i < |draws| ==> Fits(draws[i], bag)
    ensures Fits(Maximums(draws), bag)
  {
    if draws != [] {
      MaximumsLeast(draws[..|draws| - 1], bag);
    }
  }

  /** `Game::possible`. */
  predicate Possible(game: Game, bag: Draw)
  {
    Fits(Maximums(game.draws), bag)
  }

  /** A game is possible exactly when every one of its draws fits in the bag. */
  lemma PossibleIff(game: Game, bag: Draw)
    ensures Possible(game, bag) <==> forall i :: 0 <= i < |game.draws| ==> Fits(game.draws[i], bag)
  {
    if forall i :: 0 <= i < |game.draws| ==> Fits(game.draws[i], bag) {
      MaximumsLeast(game.draws, bag);
    }
  }

  /** `Game::power`. */
  function GamePower(game: Game): nat
  {
    Power(Maximums(game.draws))
  }

  lemma MulMonotone(a: nat, b: nat, c: nat, d: nat)
    requires a <= c && b <= d
    ensures a * b <= c * d
  {
    MulNonnegative(c - a, b);
    MulNonnegative(c, d - b);
  }

  /** The power is that of the smallest bag for which the game is possible: the maximums make
      the game possible, and any bag that does has at least that power. */
  lemma PowerIsMinimal(game: Game, bag: Draw)
    ensures Possible(game, Maximums(game.draws))
    ensures Possible(game, bag) ==> GamePower(game) <= Power(bag)
  {
    if Possible(game, bag) {
      var m := Maximums(game.draws);
      MulMonotone(m.red, m.green, bag.red, bag.green);
      MulNonnegative(m.red, m.green);
      MulMonotone(m.red * m.green, m.blue, bag.red * bag.green, bag.blue);
    }
  }

  // ---------------------------------------------------------------------------------------
  // Parsing

  function ColourName(c: Colour): String
  {
    match c
    case Red => "red"
    case Green => "green"
    case Blue => "blue"
  }

  /** One "<quantity> <colour>" item of a draw. */
  function ColourItem(item: String): (r: Result<(Colour, nat)>)
    ensures r.Ok? ==> r.value.1 < U32_LIMIT
  {
    match SplitOnce(item, " ")
    case None => Err
    case Some((quantityText, colour)) =>
      match ParseUnsigned(quantityText, U32_LIMIT)
      case None => Err
      case Some(quantity) =>
        if colour == "red" then Ok((Red, quantity))
        else if colour == "green" then Ok((Green, quantity))
        else if colour == "blue" then Ok((Blue, quantity))
        else Err
  }

  function ItemText(c: Colour, n: nat): String
  {
    Decimal(n) + " " + ColourName(c)
  }

  /** An item written out reads back as its colour and quantity. */
  lemma ItemRoundTrip(c: Colour, n: nat)
    requires n < U32_LIMIT
    ensures ColourItem(ItemText(c, n)) == Ok((c, n))
  {
    DigitsLack(Decimal(n), ' ');
    FindAfter(Decimal(n), " ", ColourName(c));
    ParseDecimal(n, U32_LIMIT);
  }

  function SetCount(d: Draw, c: Colour, n: nat): Draw
  {
    match c
    case Red => d.(red := n)
    case Green => d.(green := n)
    case Blue => d.(blue := n)
  }

  /** The draw that the items assign, starting from (0, 0, 0); a later item for a colour
      overrides an earlier one. */
  function Assigned(items: seq<(Colour, nat)>): Draw
  {
    if items == [] then Draw(0, 0, 0)
    else
      var last := items[|items| - 1];
      SetCount(Assigned(items[..|items| - 1]), last.0, last.1)
  }

  lemma AssignedAppend(items: seq<(Colour, nat)>, item: (Colour, nat))
    ensures Assigned(items + [item]) == SetCount(Assigned(items), item.0, item.1)
  {
    assert (items + [item])[..|items|] == items;
  }

  /** A colour that no item names is 0, and a colour named by the last item takes its
      quantity. */
  lemma {:induction false} AssignedCounts(items: seq<(Colour, nat)>, c: Colour)
    ensures (forall i :: 0 <= i < |items| ==> items[i].0 != c) ==> Count(Assigned(items), c) == 0
    ensures items != [] && items[|items| - 1].0 == c ==> Count(Assigned(items), c) == items[|items| - 1].1
  {
    if items != [] && forall i :: 0 <= i < |items| ==> items[i].0 != c {
      var init := items[..|items| - 1];
      assert forall i :: 0 <= i < |init| ==> init[i].0 != c by {
        forall i | 0 <= i < |init| ensures init[i].0 != c {
          assert init[i] == items[i];
        }
      }
      AssignedCounts(init, c);
    }
  }

  /** `Draw::from_str`, as a function of the text. */
  function DrawOf(text: String): (r: Result<Draw>)
  {
    match ParseEach(ColourItem, Split(text, ", "))
    case Err => Err
    case Ok(items) => Ok(Assigned(items))
  }

  /** `Draw::from_str`: the items separated by ", ", each assigning one colour. */
  method ParseDraw(text: String) returns (r: Result<Draw>)
    ensures r == DrawOf(text)
  {
    var items := Split(text, ", ");
    var red: nat, green: nat, blue: nat := 0, 0, 0;
    ghost var parsed: seq<(Colour, nat)> := [];
    for i := 0 to |items|
      invariant ParseEach(ColourItem, items[..i]) == Ok(parsed)
      invariant Draw(red, green, blue) == Assigned(parsed)
    {
      var item := ColourItem(items[i]);
      if item.Err? {
        ParseEachFails(ColourItem, items, i);
        return Err;
      }
      ParseEachExtend(ColourItem, items, i, item.value);
      AssignedAppend(parsed, item.value);
      parsed := parsed + [item.value];
      var quantity := item.value.1;
      match item.value.0
      case Red => red := quantity;
      case Green => green := quantity;
      case Blue => blue := quantity;
    }
    assert items[..|items|] == items;
    r := Ok(Draw(red, green, blue));
  }

  /** A draw that names one colour has 0 cubes of the others. */
  lemma SingleItem(c: Colour, n: nat)
    requires n < U32_LIMIT
    ensures DrawOf(ItemText(c, n)) == Ok(SetCount(Draw(0, 0, 0), c, n))
  {
    ItemRoundTrip(c, n);
    NoPunctuation(c, n, ',');
    NoOccurrence(ItemText(c, n), ", ");
    SplitNone(ItemText(c, n), ", ");
    ParseEachAll(ColourItem, [ItemText(c, n)], [(c, n)]);
    AssignedAppend([], (c, n));
  }

  /** `to_string` of a draw, naming every colour. */
  function DrawText(d: Draw): String
  {
    Join([ItemText(Red, d.red), ItemText(Green, d.green), ItemText(Blue, d.blue)], ", ")
  }

  predicate DrawInRange(d: Draw)
  {
    d.red < U32_LIMIT && d.green < U32_LIMIT && d.blue < U32_LIMIT
  }

  lemma NoPunctuation(c: Colour, n: nat, p: char)
    requires p == ',' || p == ';' || p == ':'
    ensures p !in ItemText(c, n)
  {
    DigitsLack(Decimal(n), p);
    match c
    case Red => assert p !in "red";
    case Green => assert p !in "green";
    case Blue => assert p !in "blue";
  }

  lemma DigitsLack(digits: String, p: char)
    requires AllDigits(digits) && !IsDigit(p)
    ensures p !in digits
  {
  }

  /** A draw written out reads back as the same draw. */
  lemma DrawRoundTrip(d: Draw)
    requires DrawInRange(d)
    ensures DrawOf(DrawText(d)) == Ok(d)
  {
    var pairs := [(Red, d.red), (Green, d.green), (Blue, d.blue)];
    var items := seq(3, k requires 0 <= k < 3 => ItemText(pairs[k].0, pairs[k].1));
    assert items == [ItemText(Red, d.red), ItemText(Green, d.green), ItemText(Blue, d.blue)];
    assert DrawText(d) == Join(items, ", ");
    forall k | 0 <= k < 3 ensures ',' !in items[k] && ColourItem(items[k]) == Ok(pairs[k]) {
      NoPunctuation(pairs[k].0, pairs[k].1, ',');
      ItemRoundTrip(pairs[k].0, pairs[k].1);
    }
    ParseEachAll(ColourItem, items, pairs);
    JoinedItems(items, pairs);
    AssignedAll(d);
  }

  /** Items joined with ", " read back as the draw they assign. */
  lemma JoinedItems(items: seq<String>, pairs: seq<(Colour, nat)>)
    requires |items| > 0 && forall k :: 0 <= k < |items| ==> ',' !in items[k]
    requires ParseEach(ColourItem, items) == Ok(pairs)
    ensures DrawOf(Join(items, ", ")) == Ok(Assigned(pairs))
  {
    SplitJoin(items, ", ");
  }

  lemma AssignedAll(d: Draw)
    ensures Assigned([(Red, d.red), (Green, d.green), (Blue, d.blue)]) == d
  {
    AssignedAppend([], (Red, d.red));
    assert [] + [(Red, d.red)] == [(Red, d.red)];
    AssignedAppend([(Red, d.red)], (Green, d.green));
    assert [(Red, d.red)] + [(Green, d.green)] == [(Red, d.red), (Green, d.green)];
    AssignedAppend([(Red, d.red), (Green, d.green)], (Blue, d.blue));
    assert [(Red, d.red), (Green, d.green)] + [(Blue, d.blue)] == [(Red, d.red), (Green, d.green), (Blue, d.blue)];
  }

  /** `Game::from_str`, as a function of the text. */
  function GameOf(text: String): (r: Result<Game>)
  {
    match SplitOnce(text, ": ")
    case None => Err
    case Some((head, drawsText)) =>
      match StripPrefix(head, "Game ")
      case None => Err
      case Some(idText) =>
        match ParseUnsigned(idText, U32_LIMIT)
        case None => Err
        case Some(id) =>
          match ParseEach(DrawOf, Split(drawsText, "; "))
          case Err => Err
          case Ok(draws) => Ok(Game(id, draws))
  }

  /** `Game::from_str`: "Game <id>: " then the draws separated by "; ", kept in order. */
  method ParseGame(text: String) returns (r: Result<Game>)
    ensures r == GameOf(text)
  {
    var halves := SplitOnce(text, ": ");
    if halves.None? {
      return Err;
    }
    var (head, drawsText) := halves.value;
    var idText := StripPrefix(head, "Game ");
    if idText.None? {
      return Err;
    }
    var id := ParseUnsigned(idText.value, U32_LIMIT);
    if id.None? {
      return Err;
    }
    var texts := Split(drawsText, "; ");
    var draws := [];
    for i := 0 to |texts|
      invariant ParseEach(DrawOf, texts[..i]) == Ok(draws)
    {
      var draw := ParseDraw(texts[i]);
      if draw.Err? {
        ParseEachFails(DrawOf, texts, i);
        return Err;
      }
      ParseEachExtend(DrawOf, texts, i, draw.value);
      draws := draws + [draw.value];
    }
    assert texts[..|texts|] == texts;
    r := Ok(Game(id.value, draws));
  }

  /** The draws of a parsed game are the draws of its "; "-separated pieces, in order. */
  lemma GameDraws(text: String, i: nat)
    requires GameOf(text).Ok? && i < |GameOf(text).value.draws|
    ensures Occurs(text, ": ")
    ensures DrawOf(Split(SplitOnce(text, ": ").value.1, "; ")[i]) == Ok(GameOf(text).value.draws[i])
  {
    ParseEachEntry(DrawOf, Split(SplitOnce(text, ": ").value.1, "; "), i);
  }

  function DrawTexts(draws: seq<Draw>): (texts: seq<String>)
    ensures |texts| == |draws|
  {
    seq(|draws|, i requires 0 <= i < |draws| => DrawText(draws[i]))
  }

  /** `to_string` of a game. */
  function GameText(game: Game): String
  {
    "Game " + Decimal(game.id) + ": " + Join(DrawTexts(game.draws), "; ")
  }

  /** A game written out reads back as the same game, as long as it has a draw: an empty
      list of draws is written as "", which is one draw with no valid item. */
  lemma GameRoundTrip(game: Game)
    requires game.id < U32_LIMIT && game.draws != []
    requires forall i :: 0 <= i < |game.draws| ==> DrawInRange(game.draws[i])
    ensures GameOf(GameText(game)) == Ok(game)
  {
    DrawsRoundTrip(game.draws);
    HeadRoundTrip(game.id, Join(DrawTexts(game.draws), "; "), game.draws);
  }

  /** Draws joined with "; " read back as the same draws. */
  lemma DrawsRoundTrip(draws: seq<Draw>)
    requires draws != []
    requires forall i :: 0 <= i < |draws| ==> DrawInRange(draws[i])
    ensures ParseEach(DrawOf, Split(Join(DrawTexts(draws), "; "), "; ")) == Ok(draws)
  {
    var texts := DrawTexts(draws);
    forall k | 0 <= k < |texts| ensures ';' !in texts[k] && DrawOf(texts[k]) == Ok(draws[k]) {
      var d := draws[k];
      NoPunctuation(Red, d.red, ';');
      NoPunctuation(Green, d.green, ';');
      NoPunctuation(Blue, d.blue, ';');
      NotInJoin([ItemText(Red, d.red), ItemText(Green, d.green), ItemText(Blue, d.blue)], ", ", ';');
      DrawRoundTrip(d);
    }
    SplitJoin(texts, "; ");
    ParseEachAll(DrawOf, texts, draws);
  }

  /** After a well-formed "Game <id>: " head, the game stands or falls with its draws. */
  lemma HeadParsed(id: nat, rest: String)
    requires id < U32_LIMIT
    ensures GameOf("Game " + Decimal(id) + ": " + rest) ==
              match ParseEach(DrawOf, Split(rest, "; "))
              case Err => Err
              case Ok(draws) => Ok(Game(id, draws))
  {
    var head := "Game " + Decimal(id);
    DigitsLack(Decimal(id), ':');
    assert ':' !in "Game ";
    FindAfter(head, ": ", rest);
    assert StripPrefix(head, "Game ") == Some(Decimal(id));
    ParseDecimal(id, U32_LIMIT);
  }

  /** A game whose first draw does not parse does not parse either. */
  lemma FirstDrawFails(id: nat, first: String, rest: String)
    requires id < U32_LIMIT && ';' !in first && DrawOf(first).Err?
    ensures GameOf("Game " + Decimal(id) + ": " + (first + "; " + rest)).Err?
  {
    HeadParsed(id, first + "; " + rest);
    SplitAfter(first, "; ", rest);
    ParseEachFails(DrawOf, Split(first + "; " + rest, "; "), 0);
  }

  /** "Game <id>: " followed by draws that parse reads back as that game. */
  lemma HeadRoundTrip(id: nat, rest: String, draws: seq<Draw>)
    requires id < U32_LIMIT
    requires ParseEach(DrawOf, Split(rest, "; ")) == Ok(draws)
    ensures GameOf("Game " + Decimal(id) + ": " + rest) == Ok(Game(id, draws))
  {
    HeadParsed(id, rest);
  }

  // ---------------------------------------------------------------------------------------
  // The two parts

  const BAG: Draw := Draw(12, 13, 14)

  function IdIfPossible(bag: Draw): Game -> nat
  {
    game => if Possible(game, bag) then game.id else 0
  }

  /** `part_one`: the sum of the ids of the games that parse and are possible for the bag. */
  function PossibleIdSum(lines: seq<String>, bag: Draw): nat
  {
    SumParsed(GameOf, IdIfPossible(bag), lines)
  }

  /** A larger bag makes at least as many games possible, so the sum does not shrink. */
  lemma PossibleIdSumMonotone(lines: seq<String>, small: Draw, large: Draw)
    requires Fits(small, large)
    ensures PossibleIdSum(lines, small) <= PossibleIdSum(lines, large)
  {
    SumParsedMonotone(GameOf, IdIfPossible(small), IdIfPossible(large), lines);
  }

  /** With an empty bag, a game counts only when every draw in it is empty. */
  lemma EmptyBag(lines: seq<String>)
    requires forall k :: 0 <= k < |lines| ==> GameOf(lines[k]).Ok? ==>
               exists i :: 0 <= i < |GameOf(lines[k]).value.draws| && GameOf(lines[k]).value.draws[i] != Draw(0, 0, 0)
    ensures PossibleIdSum(lines, Draw(0, 0, 0)) == 0
  {
    forall k | 0 <= k < |lines| && GameOf(lines[k]).Ok?
      ensures IdIfPossible(Draw(0, 0, 0))(GameOf(lines[k]).value) <= 0
    {
      PossibleIff(GameOf(lines[k]).value, Draw(0, 0, 0));
    }
    SumParsedBound(GameOf, IdIfPossible(Draw(0, 0, 0)), lines, 0);
  }

  function PartOne(input: String): nat
  {
    PossibleIdSum(Lines(input), BAG)
  }

  /** `part_two`: the sum of the powers of the games that parse. */
  function PowerSum(lines: seq<String>): nat
  {
    SumParsed(GameOf, GamePower, lines)
  }

  /** When every game is possible for one bag, the sum of powers is at most that bag's power
      per line. */
  lemma PowerSumBound(lines: seq<String>, bag: Draw)
    requires forall k :: 0 <= k < |lines| ==> GameOf(lines[k]).Ok? ==> Possible(GameOf(lines[k]).value, bag)
    ensures PowerSum(lines) <= |lines| * Power(bag)
  {
    forall k | 0 <= k < |lines| && GameOf(lines[k]).Ok?
      ensures GamePower(GameOf(lines[k]).value) <= Power(bag)
    {
      PowerIsMinimal(GameOf(lines[k]).value, bag);
    }
    SumParsedBound(GameOf, GamePower, lines, Power(bag));
  }

  function PartTwo(input: String): nat
  {
    PowerSum(Lines(input))
  }
}
