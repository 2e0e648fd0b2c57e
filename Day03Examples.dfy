/** The rings and the part numbers of the tests in src/bin/03.rs. */
module Day03Examples {
  import opened Day03

  /** A one-digit part at (1, 1) has the eight cells around it. */
  lemma SingleDigitRing()
    ensures 2 * Width(Part(4, Point(1, 1))) + 6 == 8
    ensures var part := Part(4, Point(1, 1));
            InRing(part, Point(0, 0)) && InRing(part, Point(1, 0)) && InRing(part, Point(2, 0)) &&
            InRing(part, Point(0, 1)) && InRing(part, Point(2, 1)) &&
            InRing(part, Point(0, 2)) && InRing(part, Point(1, 2)) && InRing(part, Point(2, 2))
  {
  }

  /** A three-digit part at (1, 1) has twelve cells around it. */
  lemma ThreeDigitRing()
    ensures 2 * Width(Part(437, Point(1, 1))) + 6 == 12
    ensures var part := Part(437, Point(1, 1));
            InRing(part, Point(0, 0)) && InRing(part, Point(1, 0)) && InRing(part, Point(2, 0)) &&
            InRing(part, Point(3, 0)) && InRing(part, Point(4, 0)) &&
            InRing(part, Point(0, 1)) && InRing(part, Point(4, 1)) &&
            InRing(part, Point(0, 2)) && InRing(part, Point(1, 2)) && InRing(part, Point(2, 2)) &&
            InRing(part, Point(3, 2)) && InRing(part, Point(4, 2))
  {
    assert Width(Part(437, Point(1, 1))) == 3;
  }

  /** The symbols of the example schematic. */
  function ExampleSymbols(): map<Point, char>
  {
    map[Point(4, 2) := '*', Point(7, 4) := '#', Point(4, 5) := '*',
        Point(6, 6) := '+', Point(4, 9) := '$', Point(6, 9) := '*']
  }

  lemma NumbersStep(parts: seq<Part>, k: nat, symbols: map<Point, char>)
    requires k < |parts|
    ensures NumbersNearSymbols(parts[..k + 1], symbols) ==
              NumbersNearSymbols(parts[..k], symbols) + (if NearSymbol(parts[k], symbols) then [parts[k].number] else [])
  {
    assert parts[..k + 1][..k] == parts[..k];
  }

  /** A part with the given symbol cell in its ring. */
  lemma Near(part: Part, p: Point)
    requires p in ExampleSymbols() && InRing(part, p)
    ensures NearSymbol(part, ExampleSymbols())
  {
  }

  /** 114 at (6, 1) and 58 at (8, 6) have no symbol around them. */
  lemma NotNear()
    ensures !NearSymbol(Part(114, Point(6, 1)), ExampleSymbols())
    ensures !NearSymbol(Part(58, Point(8, 6)), ExampleSymbols())
  {
    assert Width(Part(114, Point(6, 1))) == 3;
    assert Width(Part(58, Point(8, 6))) == 2;
  }

  /** The ten parts of the example in the order of the text. */
  function ExampleParts(): seq<Part>
  {
    [Part(467, Point(1, 1)), Part(114, Point(6, 1)), Part(35, Point(3, 3)), Part(633, Point(7, 3)),
     Part(617, Point(1, 5)), Part(58, Point(8, 6)), Part(592, Point(3, 7)), Part(755, Point(7, 8)),
     Part(664, Point(2, 10)), Part(598, Point(6, 10))]
  }

  /** The numbers of ten parts of which all but the second and the sixth are near a symbol. */
  lemma NumbersOfTen(parts: seq<Part>, symbols: map<Point, char>)
    requires |parts| == 10
    requires !NearSymbol(parts[1], symbols) && !NearSymbol(parts[5], symbols)
    requires NearSymbol(parts[0], symbols) && NearSymbol(parts[2], symbols) && NearSymbol(parts[3], symbols)
    requires NearSymbol(parts[4], symbols) && NearSymbol(parts[6], symbols) && NearSymbol(parts[7], symbols)
    requires NearSymbol(parts[8], symbols) && NearSymbol(parts[9], symbols)
    ensures NumbersNearSymbols(parts, symbols) ==
              [parts[0].number, parts[2].number, parts[3].number, parts[4].number,
               parts[6].number, parts[7].number, parts[8].number, parts[9].number]
  {
    assert parts[..0] == [];
    NumbersStep(parts, 0, symbols);
    NumbersStep(parts, 1, symbols);
    NumbersStep(parts, 2, symbols);
    NumbersStep(parts, 3, symbols);
    NumbersStep(parts, 4, symbols);
    NumbersStep(parts, 5, symbols);
    NumbersStep(parts, 6, symbols);
    NumbersStep(parts, 7, symbols);
    NumbersStep(parts, 8, symbols);
    NumbersStep(parts, 9, symbols);
    assert parts[..10] == parts;
  }

  /** Eight of the ten parts are next to a symbol: all but 114 and 58. */
  lemma PartNumbersExample()
    ensures NumbersNearSymbols(ExampleParts(), ExampleSymbols()) == [467, 35, 633, 617, 592, 755, 664, 598]
  {
    var parts := ExampleParts();
    Near(parts[0], Point(4, 2));
    NotNear();
    Near(parts[2], Point(4, 2));
    Near(parts[3], Point(7, 4));
    Near(parts[4], Point(4, 5));
    Near(parts[6], Point(6, 6));
    Near(parts[7], Point(6, 9));
    Near(parts[8], Point(4, 9));
    Near(parts[9], Point(6, 9));
    NumbersOfTen(parts, ExampleSymbols());
  }

  /** The part numbers of the example sum to 4361. */
  lemma PartNumbersSumExample()
    ensures Sum([467, 35, 633, 617, 592, 755, 664, 598]) == 4361
  {
    var numbers := [467, 35, 633, 617, 592, 755, 664, 598];
    assert numbers[..1][..0] == [];
    assert numbers[..2][..1] == numbers[..1];
    assert numbers[..3][..2] == numbers[..2];
    assert numbers[..4][..3] == numbers[..3];
    assert numbers[..5][..4] == numbers[..4];
    assert numbers[..6][..5] == numbers[..5];
    assert numbers[..7][..6] == numbers[..6];
    assert numbers[..8][..7] == numbers[..7];
    assert Sum(numbers[..1]) == 467;
    assert Sum(numbers[..2]) == 502;
    assert Sum(numbers[..3]) == 1135;
    assert Sum(numbers[..4]) == 1752;
    assert Sum(numbers[..5]) == 2344;
    assert Sum(numbers[..6]) == 3099;
    assert Sum(numbers[..7]) == 3763;
    assert numbers[..8] == numbers;
  }
}
