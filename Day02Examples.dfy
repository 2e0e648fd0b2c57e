/** The games of the tests in src/bin/02.rs. */
module Day02Examples {
  import opened Wrappers
  import opened Text
  import opened Day02

  lemma MaximumsAppend(draws: seq<Draw>, d: Draw)
    ensures Maximums(draws + [d]) ==
              Draw(Max(Maximums(draws).red, d.red), Max(Maximums(draws).green, d.green), Max(Maximums(draws).blue, d.blue))
  {
    assert (draws + [d])[..|draws|] == draws;
  }

  /** The maximums of three draws, one fold step at a time. */
  lemma MaximumsOfThree(a: Draw, b: Draw, c: Draw)
    ensures Maximums([a, b, c]) ==
              Draw(Max(Max(a.red, b.red), c.red), Max(Max(a.green, b.green), c.green), Max(Max(a.blue, b.blue), c.blue))
  {
    MaximumsAppend([], a);
    assert [] + [a] == [a];
    MaximumsAppend([a], b);
    assert [a] + [b] == [a, b];
    MaximumsAppend([a, b], c);
    assert [a, b] + [c] == [a, b, c];
  }

  function GameOne(): Game
  {
    Game(1, [Draw(4, 0, 3), Draw(1, 2, 6), Draw(0, 2, 0)])
  }

  function GameThree(): Game
  {
    Game(3, [Draw(20, 8, 6), Draw(4, 13, 5), Draw(1, 5, 0)])
  }

  lemma MaximumsExample()
    ensures Maximums([Draw(4, 0, 0), Draw(5, 2, 0), Draw(0, 1, 0)]) == Draw(5, 2, 0)
  {
    MaximumsOfThree(Draw(4, 0, 0), Draw(5, 2, 0), Draw(0, 1, 0));
  }

  /** Game 1 fits the bag of 12 red, 13 green and 14 blue cubes; game 3 needs 20 red. */
  lemma PossibleExamples()
    ensures Possible(GameOne(), BAG)
    ensures !Possible(GameThree(), BAG)
  {
    MaximumsOfThree(Draw(4, 0, 3), Draw(1, 2, 6), Draw(0, 2, 0));
    MaximumsOfThree(Draw(20, 8, 6), Draw(4, 13, 5), Draw(1, 5, 0));
  }

  lemma PowerExamples()
    ensures GamePower(GameOne()) == 48
    ensures GamePower(GameThree()) == 1560
  {
    MaximumsOfThree(Draw(4, 0, 3), Draw(1, 2, 6), Draw(0, 2, 0));
    MaximumsOfThree(Draw(20, 8, 6), Draw(4, 13, 5), Draw(1, 5, 0));
  }

  /** "17 green" names one colour; the others are 0. */
  lemma SingleColourExample()
    ensures DrawOf("17 green") == Ok(Draw(0, 17, 0))
  {
    assert Decimal(17) == "17";
    assert ItemText(Green, 17) == "17 green";
    SingleItem(Green, 17);
  }

  /** The text of the two items "3 blue" and "4 red", joined. */
  lemma TwoColourText(blue: String, red: String)
    requires blue == ItemText(Blue, 3) && red == ItemText(Red, 4)
    ensures Join([blue, red], ", ") == "3 blue, 4 red"
  {
    assert blue == "3 blue" by { assert Decimal(3) == "3"; }
    assert red == "4 red" by { assert Decimal(4) == "4"; }
    assert [blue, red][1..] == [red];
  }

  /** The two items read back as their colours and counts. */
  lemma TwoColourItems(items: seq<String>, pairs: seq<(Colour, nat)>)
    requires items == [ItemText(Blue, 3), ItemText(Red, 4)] && pairs == [(Blue, 3), (Red, 4)]
    ensures forall k :: 0 <= k < |items| ==> ',' !in items[k]
    ensures ParseEach(ColourItem, items) == Ok(pairs)
  {
    forall k | 0 <= k < 2 ensures ',' !in items[k] && ColourItem(items[k]) == Ok(pairs[k]) {
      NoPunctuation(pairs[k].0, pairs[k].1, ',');
      ItemRoundTrip(pairs[k].0, pairs[k].1);
    }
    ParseEachAll(ColourItem, items, pairs);
  }

  /** The colours of blue 3 then red 4. */
  lemma TwoColourAssigned(pairs: seq<(Colour, nat)>)
    requires pairs == [(Blue, 3), (Red, 4)]
    ensures Assigned(pairs) == Draw(4, 0, 3)
  {
    AssignedAppend([], (Blue, 3));
    assert [] + [(Blue, 3)] == [(Blue, 3)];
    AssignedAppend([(Blue, 3)], (Red, 4));
    assert [(Blue, 3)] + [(Red, 4)] == pairs;
  }

  /** "3 blue, 4 red": items in any order, green left at 0. */
  lemma TwoColourExample()
    ensures DrawOf("3 blue, 4 red") == Ok(Draw(4, 0, 3))
  {
    var items := [ItemText(Blue, 3), ItemText(Red, 4)];
    var pairs := [(Blue, 3), (Red, 4)];
    TwoColourText(items[0], items[1]);
    assert [items[0], items[1]] == items;
    TwoColourItems(items, pairs);
    JoinedItems(items, pairs);
    TwoColourAssigned(pairs);
  }

  lemma ThreeColourText()
    ensures DrawText(Draw(1, 2, 5)) == "1 red, 2 green, 5 blue"
  {
    var red, green, blue := ItemText(Red, 1), ItemText(Green, 2), ItemText(Blue, 5);
    assert red == "1 red" by { assert Decimal(1) == "1"; }
    assert green == "2 green" by { assert Decimal(2) == "2"; }
    assert blue == "5 blue" by { assert Decimal(5) == "5"; }
    JoinThree(red, green, blue, ", ");
  }

  lemma ThreeColourExample()
    ensures DrawOf("1 red, 2 green, 5 blue") == Ok(Draw(1, 2, 5))
  {
    ThreeColourText();
    DrawRoundTrip(Draw(1, 2, 5));
  }

  /** "3 blu" names no colour. */
  lemma MisspeltItem()
    ensures ColourItem("3 blu").Err?
  {
    FindAfter("3", " ", "blu");
    assert "3" + " " + "blu" == "3 blu";
  }

  /** A draw with a misspelt colour does not parse. */
  lemma MisspeltDraw()
    ensures DrawOf("3 blu, 4 red").Err?
  {
    SplitAfter("3 blu", ", ", "4 red");
    assert "3 blu" + ", " + "4 red" == "3 blu, 4 red";
    MisspeltItem();
    ParseEachFails(ColourItem, Split("3 blu, 4 red", ", "), 0);
  }

  /** The game of the source's error test, written as its pieces around the separators: its
      first draw fails, so the whole game does. */
  lemma GameErrorExample()
    ensures GameOf("Game 1" + ": " + ("3 blu, 4 red" + "; " + "1 red, 2 green, and 6 blue; 2G")).Err?
  {
    assert "Game " + Decimal(1) == "Game 1";
    MisspeltDraw();
    FirstDrawFails(1, "3 blu, 4 red", "1 red, 2 green, and 6 blue; 2G");
  }
}
