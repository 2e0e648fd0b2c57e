/** Gear ratios (src/bin/03.rs): an engine schematic is a grid of digits, '.' and symbols;
    each maximal run of digits on a row is a part, and the part numbers are those of parts
    with a symbol in the ring of cells around them. Coordinates are 1-based, so the ring of
    a part never needs a negative coordinate. */
module Day03 {
  import opened Text

  datatype Point = Point(x: nat, y: nat)

  datatype Part = Part(number: nat, position: Point)

  datatype Schematic = Schematic(symbols: map<Point, char>, parts: seq<Part>)

  // ---------------------------------------------------------------------------------------
  // The ring around a part

  /** The number of cells the part's number takes when written out. */
  function Width(part: Part): nat
  {
    DecimalLength(part.number)
  }

  /** `p` is one of the cells around the part: the cell before and the cell after the number
      on its row, and the cells from one before to one after it on the rows above and below. */
  predicate InRing(part: Part, p: Point)
  {
    var west := part.position.x - 1;
    var east := part.position.x + Width(part);
    var y := part.position.y;
    (p.y == y && (p.x == west || p.x == east)) ||
    ((p.y == y - 1 || p.y == y + 1) && west <= p.x <= east)
  }

  /** `Part::adjacent_points`: the west and east cells, then a pass over the columns from
      west to east adding the cell above and the cell below. */
  method AdjacentPoints(part: Part) returns (adjacent: set<Point>)
    requires part.position.x >= 1 && part.position.y >= 1
    ensures forall p :: p in adjacent <==> InRing(part, p)
    ensures |adjacent| == 2 * Width(part) + 6
  {
    var west := part.position.x - 1;
    var east := part.position.x + Width(part);
    var y := part.position.y;
    adjacent := {Point(west, y)};
    adjacent := adjacent + {Point(east, y)};
    for x := west to east + 1
      invariant forall p :: p in adjacent <==>
                  (p.y == y && (p.x == west || p.x == east)) || ((p.y == y - 1 || p.y == y + 1) && west <= p.x < x)
      invariant |adjacent| == 2 + 2 * (x - west)
    {
      assert Point(x, y - 1) !in adjacent;
      adjacent := adjacent + {Point(x, y - 1)};
      assert Point(x, y + 1) !in adjacent;
      adjacent := adjacent + {Point(x, y + 1)};
    }
  }

  /** The ring never holds a cell that the written-out number itself takes. */
  lemma RingAvoidsNumber(part: Part, p: Point)
    requires part.position.x >= 1 && part.position.y >= 1
    requires p.y == part.position.y && part.position.x <= p.x < part.position.x + Width(part)
    ensures !InRing(part, p)
  {
  }

  // ---------------------------------------------------------------------------------------
  // Runs of digits on a row

  predicate IsSymbol(c: char)
  {
    !IsDigit(c) && c != '.'
  }

  /** A run of digits starts at index `s`. */
  predicate RunStart(line: String, s: nat)
  {
    s < |line| && IsDigit(line[s]) && (s == 0 || !IsDigit(line[s - 1]))
  }

  /** The index just after the digits that begin at `s`. */
  function RunEnd(line: String, s: nat): (e: nat)
    requires s <= |line|
    ensures s <= e <= |line| && AllDigits(line[s..e])
    ensures e == |line| || !IsDigit(line[e])
    decreases |line| - s
  {
    if s < |line| && IsDigit(line[s]) then
      var e := RunEnd(line, s + 1);
      assert line[s..e] == [line[s]] + line[s + 1..e];
      e
    else s
  }

  /** Digits from `s` up to a non-digit or the end of the line end the run at `e`. */
  lemma {:induction false} RunEndAt(line: String, s: nat, e: nat)
    requires s <= e <= |line| && AllDigits(line[s..e])
    requires e == |line| || !IsDigit(line[e])
    ensures RunEnd(line, s) == e
    decreases e - s
  {
    if s < e {
      assert IsDigit(line[s..e][0]);
      assert line[s + 1..e] == line[s..e][1..];
      RunEndAt(line, s + 1, e);
    }
  }

  /** The part whose run starts at index `s` of row `y`: its decimal value, at column `s + 1`. */
  function PartFrom(line: String, y: nat, s: nat): Part
    requires s < |line|
  {
    Part(DecimalValue(line[s..RunEnd(line, s)]), Point(s + 1, y))
  }

  /** The parts of the runs that start in the first `n` characters of row `y`, left to right. */
  function RowParts(line: String, y: nat, n: nat): seq<Part>
    requires n <= |line|
  {
    if n == 0 then []
    else RowParts(line, y, n - 1) + (if RunStart(line, n - 1) then [PartFrom(line, y, n - 1)] else [])
  }

  /** The symbols among the first `n` characters of row `y`, at their 1-based columns. */
  function RowSymbols(line: String, y: nat, n: nat): map<Point, char>
    requires n <= |line|
  {
    if n == 0 then map[]
    else
      var symbols := RowSymbols(line, y, n - 1);
      if IsSymbol(line[n - 1]) then symbols[Point(n, y) := line[n - 1]] else symbols
  }

  /** The symbols of a row are exactly its characters other than digits and '.', each at its
      own position. */
  lemma {:induction false} RowSymbolsIff(line: String, y: nat, n: nat)
    requires n <= |line|
    ensures forall p :: p in RowSymbols(line, y, n) <==> p.y == y && 1 <= p.x <= n && IsSymbol(line[p.x - 1])
    ensures forall p :: p in RowSymbols(line, y, n) ==> 1 <= p.x <= n && RowSymbols(line, y, n)[p] == line[p.x - 1]
  {
    if n > 0 {
      RowSymbolsIff(line, y, n - 1);
    }
  }

  /** A digit after a digit extends the open run: its value gains a decimal place and no new
      part starts. */
  lemma ContinueRun(line: String, y: nat, s: nat, i: nat)
    requires s < i < |line| && AllDigits(line[s..i]) && IsDigit(line[i])
    ensures AllDigits(line[s..i + 1])
    ensures DecimalValue(line[s..i + 1]) == 10 * DecimalValue(line[s..i]) + DigitValue(line[i])
    ensures RowParts(line, y, i + 1) == RowParts(line, y, i)
  {
    assert line[s..i + 1][..i - s] == line[s..i];
    assert line[i - 1] == line[s..i][i - 1 - s];
  }

  /** A digit after a non-digit starts a run, and its part. */
  lemma BeginRun(line: String, y: nat, i: nat)
    requires i < |line| && IsDigit(line[i]) && (i == 0 || !IsDigit(line[i - 1]))
    ensures RunStart(line, i) && AllDigits(line[i..i + 1])
    ensures DecimalValue(line[i..i + 1]) == DigitValue(line[i])
    ensures RowParts(line, y, i + 1) == RowParts(line, y, i) + [PartFrom(line, y, i)]
  {
    assert line[i..i + 1] == [line[i]];
    assert line[i..i + 1][..0] == [];
  }

  /** A non-digit starts no run. */
  lemma NoRun(line: String, y: nat, i: nat)
    requires i < |line| && !IsDigit(line[i])
    ensures RowParts(line, y, i + 1) == RowParts(line, y, i)
  {
  }

  /** A run closed at `e` is the part with the value of its digits. */
  lemma EndRun(line: String, y: nat, s: nat, e: nat)
    requires s < e <= |line| && AllDigits(line[s..e])
    requires e == |line| || !IsDigit(line[e])
    ensures PartFrom(line, y, s) == Part(DecimalValue(line[s..e]), Point(s + 1, y))
  {
    RunEndAt(line, s, e);
  }

  /** The state of the scan of a row after `i` characters: with no open run (`numberBegan`
      is 0) the parts so far are those of the row's first `i` characters; with a run open
      since column `numberBegan`, `number` is the value of its digits so far and its part is
      the one still to be recorded. */
  predicate Scanned(line: String, y: nat, i: nat, numberBegan: nat, number: nat, parts: seq<Part>)
    requires i <= |line|
  {
    numberBegan <= i &&
    (numberBegan == 0 ==> number == 0 && parts == RowParts(line, y, i) && (i == 0 || !IsDigit(line[i - 1]))) &&
    (numberBegan > 0 ==> (AllDigits(line[numberBegan - 1..i]) &&
                          number == DecimalValue(line[numberBegan - 1..i]) &&
                          RowParts(line, y, i) == parts + [PartFrom(line, y, numberBegan - 1)]))
  }

  /** One character of the row scan: a digit starts or extends the open run, and any other
      character closes it, recording its part. */
  method ScanCharacter(line: String, y: nat, i: nat, numberBegan: nat, number: nat, parts: seq<Part>)
    returns (numberBegan': nat, number': nat, parts': seq<Part>)
    requires i < |line| && Scanned(line, y, i, numberBegan, number, parts)
    ensures Scanned(line, y, i + 1, numberBegan', number', parts')
  {
    var x := i + 1;
    var ch := line[i];
    numberBegan', number', parts' := numberBegan, number, parts;
    if IsDigit(ch) {
      if numberBegan > 0 {
        ContinueRun(line, y, numberBegan - 1, i);
        number' := number * 10 + DigitValue(ch);
      } else {
        BeginRun(line, y, i);
        numberBegan' := x;
        number' := DigitValue(ch);
      }
    } else {
      NoRun(line, y, i);
      if numberBegan > 0 {
        EndRun(line, y, numberBegan - 1, i);
        parts' := parts + [Part(number, Point(numberBegan, y))];
        numberBegan' := 0;
        number' := 0;
      }
    }
  }

  /** Scanning one row of `Schematic::from_str`: a run of digits accumulates its value in
      `number` from the column where it began, and is recorded when a non-digit or the end of
      the row closes it; a character other than a digit or '.' is recorded as a symbol. */
  method ParseRow(line: String, y: nat) returns (symbols: map<Point, char>, parts: seq<Part>)
    requires y >= 1
    ensures parts == RowParts(line, y, |line|)
    ensures symbols == RowSymbols(line, y, |line|)
  {
    symbols := map[];
    parts := [];
    var numberBegan: nat := 0;
    var number: nat := 0;
    for i := 0 to |line|
      invariant Scanned(line, y, i, numberBegan, number, parts)
      invariant symbols == RowSymbols(line, y, i)
    {
      numberBegan, number, parts := ScanCharacter(line, y, i, numberBegan, number, parts);
      if !IsDigit(line[i]) && line[i] != '.' {
        symbols := symbols[Point(i + 1, y) := line[i]];
      }
    }
    if numberBegan > 0 {
      EndRun(line, y, numberBegan - 1, |line|);
      parts := parts + [Part(number, Point(numberBegan, y))];
    }
  }

  /** Every part of a row is the maximal run that starts at its column, with a 1-based
      position. */
  lemma {:induction false} RowPartsAreRuns(line: String, y: nat, n: nat, k: nat)
    requires n <= |line| && k < |RowParts(line, y, n)|
    ensures var part := RowParts(line, y, n)[k];
            1 <= part.position.x <= n && part.position.y == y &&
            RunStart(line, part.position.x - 1) && part == PartFrom(line, y, part.position.x - 1)
  {
    if k < |RowParts(line, y, n - 1)| {
      RowPartsAreRuns(line, y, n - 1, k);
    }
  }

  /** Every run that starts in the row gives a part. */
  lemma {:induction false} RunsArePartsOfRow(line: String, y: nat, n: nat, s: nat)
    requires s < n <= |line| && RunStart(line, s)
    ensures PartFrom(line, y, s) in RowParts(line, y, n)
  {
    if s < n - 1 {
      RunsArePartsOfRow(line, y, n - 1, s);
    }
  }

  // ---------------------------------------------------------------------------------------
  // The whole schematic

  /** The parts of the first `n` rows, row by row; row `k` is numbered `k + 1`. */
  function PartsOf(lines: seq<String>, n: nat): seq<Part>
    requires n <= |lines|
  {
    if n == 0 then [] else PartsOf(lines, n - 1) + RowParts(lines[n - 1], n, |lines[n - 1]|)
  }

  /** The character at 1-based (x, y) is a symbol. */
  predicate IsSymbolAt(lines: seq<String>, p: Point)
  {
    1 <= p.y <= |lines| && 1 <= p.x <= |lines[p.y - 1]| && IsSymbol(lines[p.y - 1][p.x - 1])
  }

  /** The symbols of the first `n` rows. */
  function SymbolsOf(lines: seq<String>, n: nat): map<Point, char>
    requires n <= |lines|
  {
    if n == 0 then map[] else SymbolsOf(lines, n - 1) + RowSymbols(lines[n - 1], n, |lines[n - 1]|)
  }

  /** The symbols of the text are exactly its characters other than digits and '.', keyed by
      their 1-based positions. */
  lemma {:induction false} SymbolsOfIff(lines: seq<String>, n: nat)
    requires n <= |lines|
    ensures forall p :: p in SymbolsOf(lines, n) <==> p.y <= n && IsSymbolAt(lines, p)
    ensures forall p :: p in SymbolsOf(lines, n) ==> IsSymbolAt(lines, p) && SymbolsOf(lines, n)[p] == lines[p.y - 1][p.x - 1]
  {
    if n > 0 {
      SymbolsOfIff(lines, n - 1);
      RowSymbolsIff(lines[n - 1], n, |lines[n - 1]|);
    }
  }

  /** `Schematic::from_str`: the rows of the text, numbered from 1, scanned one by one. */
  method ParseSchematic(text: String) returns (s: Schematic)
    ensures s.parts == PartsOf(Lines(text), |Lines(text)|)
    ensures s.symbols == SymbolsOf(Lines(text), |Lines(text)|)
  {
    var lines := Lines(text);
    var symbols: map<Point, char> := map[];
    var parts: seq<Part> := [];
    for ix := 0 to |lines|
      invariant parts == PartsOf(lines, ix)
      invariant symbols == SymbolsOf(lines, ix)
    {
      var rowSymbols, rowParts := ParseRow(lines[ix], ix + 1);
      symbols := symbols + rowSymbols;
      parts := parts + rowParts;
    }
    s := Schematic(symbols, parts);
  }

  /** Every parsed part is a maximal run of digits with its decimal value, at 1-based
      coordinates; and every run of digits in the text is a parsed part. */
  lemma {:induction false} PartsAreRuns(lines: seq<String>, n: nat, k: nat)
    requires n <= |lines| && k < |PartsOf(lines, n)|
    ensures var part := PartsOf(lines, n)[k];
            1 <= part.position.y <= n && part.position.x >= 1 &&
            RunStart(lines[part.position.y - 1], part.position.x - 1) &&
            part == PartFrom(lines[part.position.y - 1], part.position.y, part.position.x - 1)
  {
    var init := PartsOf(lines, n - 1);
    if k < |init| {
      PartsAreRuns(lines, n - 1, k);
    } else {
      RowPartsAreRuns(lines[n - 1], n, |lines[n - 1]|, k - |init|);
    }
  }

  lemma {:induction false} RunsAreParts(lines: seq<String>, n: nat, y: nat, s: nat)
    requires 1 <= y <= n <= |lines| && RunStart(lines[y - 1], s)
    ensures PartFrom(lines[y - 1], y, s) in PartsOf(lines, n)
  {
    if y < n {
      RunsAreParts(lines, n - 1, y, s);
    } else {
      RunsArePartsOfRow(lines[y - 1], y, |lines[y - 1]|, s);
    }
  }

  // ---------------------------------------------------------------------------------------
  // Part numbers

  ghost predicate NearSymbol(part: Part, symbols: map<Point, char>)
  {
    exists p :: p in symbols && InRing(part, p)
  }

  predicate Positioned(parts: seq<Part>)
  {
    forall k :: 0 <= k < |parts| ==> parts[k].position.x >= 1 && parts[k].position.y >= 1
  }

  /** The numbers of the parts with a symbol in their ring, in the order of the parts. */
  ghost function NumbersNearSymbols(parts: seq<Part>, symbols: map<Point, char>): seq<nat>
  {
    if parts == [] then []
    else
      var last := parts[|parts| - 1];
      NumbersNearSymbols(parts[..|parts| - 1], symbols) + (if NearSymbol(last, symbols) then [last.number] else [])
  }

  /** `Schematic::part_numbers`: the parts whose ring meets a symbol. The source walks a
      `HashSet`, whose order is not specified; here the parts keep the order of the text. */
  method PartNumbers(s: Schematic) returns (numbers: seq<nat>)
    requires Positioned(s.parts)
    ensures numbers == NumbersNearSymbols(s.parts, s.symbols)
  {
    numbers := [];
    for k := 0 to |s.parts|
      invariant numbers == NumbersNearSymbols(s.parts[..k], s.symbols)
    {
      var part := s.parts[k];
      var adjacent := AdjacentPoints(part);
      assert s.parts[..k + 1][..k] == s.parts[..k];
      if adjacent * s.symbols.Keys != {} {
        var p :| p in adjacent * s.symbols.Keys;
        assert p in s.symbols && InRing(part, p);
        numbers := numbers + [part.number];
      } else {
        assert !NearSymbol(part, s.symbols) by {
          forall p | p in s.symbols ensures !InRing(part, p) {
            assert p !in adjacent * s.symbols.Keys;
          }
        }
      }
    }
    assert s.parts[..|s.parts|] == s.parts;
  }

  /** A number is reported exactly when it is the number of a part with a symbol around it. */
  lemma {:induction false} NumbersNearSymbolsIff(parts: seq<Part>, symbols: map<Point, char>, v: nat)
    ensures v in NumbersNearSymbols(parts, symbols) <==>
            exists k :: 0 <= k < |parts| && parts[k].number == v && NearSymbol(parts[k], symbols)
  {
    if parts != [] {
      var init := parts[..|parts| - 1];
      NumbersNearSymbolsIff(init, symbols, v);
      if exists k :: 0 <= k < |parts| && parts[k].number == v && NearSymbol(parts[k], symbols) {
        var k :| 0 <= k < |parts| && parts[k].number == v && NearSymbol(parts[k], symbols);
        if k < |init| {
          assert init[k] == parts[k];
        }
      }
      if exists k :: 0 <= k < |init| && init[k].number == v && NearSymbol(init[k], symbols) {
        var k :| 0 <= k < |init| && init[k].number == v && NearSymbol(init[k], symbols);
        assert parts[k] == init[k];
      }
    }
  }

  lemma {:induction false} ParsedPositioned(lines: seq<String>, n: nat)
    requires n <= |lines|
    ensures Positioned(PartsOf(lines, n))
  {
    forall k | 0 <= k < |PartsOf(lines, n)|
      ensures PartsOf(lines, n)[k].position.x >= 1 && PartsOf(lines, n)[k].position.y >= 1
    {
      PartsAreRuns(lines, n, k);
    }
  }

  function Sum(numbers: seq<nat>): nat
  {
    if numbers == [] then 0 else Sum(numbers[..|numbers| - 1]) + numbers[|numbers| - 1]
  }

  /** A part is near a symbol of the text exactly when a cell of its ring holds a symbol. */
  ghost predicate NearSymbolIn(lines: seq<String>, part: Part)
  {
    exists p :: IsSymbolAt(lines, p) && InRing(part, p)
  }

  /** The numbers of the text's parts with a symbol of the text around them. */
  ghost function PartNumbersOf(parts: seq<Part>, lines: seq<String>): seq<nat>
  {
    if parts == [] then []
    else
      var last := parts[|parts| - 1];
      PartNumbersOf(parts[..|parts| - 1], lines) + (if NearSymbolIn(lines, last) then [last.number] else [])
  }

  /** With the parsed symbols, nearness to a symbol of the map is nearness to a symbol of the
      text. */
  lemma {:induction false} NumbersAgree(parts: seq<Part>, symbols: map<Point, char>, lines: seq<String>)
    requires forall p :: p in symbols <==> IsSymbolAt(lines, p)
    ensures NumbersNearSymbols(parts, symbols) == PartNumbersOf(parts, lines)
  {
    if parts != [] {
      NumbersAgree(parts[..|parts| - 1], symbols, lines);
      var last := parts[|parts| - 1];
      if NearSymbol(last, symbols) {
        var p :| p in symbols && InRing(last, p);
        assert IsSymbolAt(lines, p);
      }
      if NearSymbolIn(lines, last) {
        var p :| IsSymbolAt(lines, p) && InRing(last, p);
        assert p in symbols;
      }
    }
  }

  /** `part_one`: the sum of the part numbers of the schematic; parsing never fails. */
  method PartOne(input: String) returns (total: nat)
    ensures total == Sum(PartNumbersOf(PartsOf(Lines(input), |Lines(input)|), Lines(input)))
  {
    var s := ParseSchematic(input);
    ParsedPositioned(Lines(input), |Lines(input)|);
    SymbolsOfIff(Lines(input), |Lines(input)|);
    var numbers := PartNumbers(s);
    NumbersAgree(s.parts, s.symbols, Lines(input));
    total := Sum(numbers);
  }
}
