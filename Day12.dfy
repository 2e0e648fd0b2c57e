/** Hot Springs (`src/bin/12.rs`): a row of springs, each operational ('.'), damaged ('#') or
    unknown ('?'), and the sizes of the runs of damaged springs in the row, written as a comma
    separated list of groups. The count of the ways to fill in the unknown springs that agree
    with the groups is computed by a recursion over the row, memoised in a cache that lives
    as long as the calculator. */
module Day12 {
  import opened Wrappers
  import opened Text

  // ---------------------------------------------------------------------------------------
  // Rows of springs

  predicate IsSpring(c: char) { c == '.' || c == '#' || c == '?' }

  /** Every character is a spring. The recursion only ever meets '.', '#' and '?': on any
      other character with no '?' after it, `replacen` would leave the row unchanged and the
      recursion would not end. */
  predicate ValidSprings(s: String)
  {
    forall i :: 0 <= i < |s| ==> IsSpring(s[i])
  }

  /** The number of unknown springs. */
  function Unknowns(s: String): nat
  {
    if s == [] then 0 else (if s[0] == '?' then 1 else 0) + Unknowns(s[1..])
  }

  /** `s.replacen(from, to, 1)` for single characters: the first `from` becomes `to`. */
  function ReplaceFirst(s: String, from: char, to: char): (r: String)
    ensures |r| == |s|
  {
    if s == [] then []
    else if s[0] == from then [to] + s[1..]
    else [s[0]] + ReplaceFirst(s[1..], from, to)
  }

  /** An unknown head is the first unknown spring: `replacen` fills it in. */
  lemma ReplaceHead(s: String, to: char)
    requires s != [] && s[0] == '?' && ValidSprings(s) && (to == '.' || to == '#')
    ensures ReplaceFirst(s, '?', to) == [to] + s[1..]
    ensures ValidSprings([to] + s[1..]) && Unknowns([to] + s[1..]) < Unknowns(s)
  {
    assert ([to] + s[1..])[1..] == s[1..];
  }

  // ---------------------------------------------------------------------------------------
  // Groups

  /** The first group's text and the text of the later groups: the text is split at the
      first ',', and without a ',' the whole text is the first group. */
  function GroupHead(groups: String): (String, String)
  {
    match SplitOnce(groups, ",")
    case Some((groupText, others)) => (groupText, others)
    case None => if groups != [] then (groups, []) else ([], [])
  }

  /** `group_txt.parse::<u64>()`. A first group that does not parse means there are no
      groups left. */
  function FirstGroup(groups: String): Option<nat>
  {
    ParseUnsigned(GroupHead(groups).0, U64_LIMIT)
  }

  // ---------------------------------------------------------------------------------------
  // The recursion

  /** `calculate_possible_arrangements_for_section`: the number of arrangements of the rest
      of the row `springs` given the groups still to place, when the row so far ends with a
      run of `collected` damaged springs that belongs to the first of those groups. */
  function Arrangements(springs: String, groups: String, collected: nat): nat
    requires ValidSprings(springs)
    decreases |springs|, Unknowns(springs)
  {
    var laterGroups := GroupHead(groups).1;
    match FirstGroup(groups)
    case None => if springs == [] then 1 else if '#' in springs then 0 else 1
    case Some(group) =>
      if springs == [] then 0
      else if springs[0] == '#' then
        if collected + 1 > group then 0
        else if collected + 1 == group then
          if |springs| == 1 then (if laterGroups == [] then 1 else 0)
          else if springs[1] == '#' then 0
          else Arrangements(springs[2..], laterGroups, 0)
        else Arrangements(springs[1..], groups, collected + 1)
      else if springs[0] == '.' then
        if collected > 0 then 0 else Arrangements(springs[1..], groups, 0)
      else
        ReplaceHead(springs, '.');
        ReplaceHead(springs, '#');
        Arrangements(ReplaceFirst(springs, '?', '.'), groups, collected)
          + Arrangements(ReplaceFirst(springs, '?', '#'), groups, collected)
  }

  /** With no group left, a row counts once if it holds no damaged spring and not at all
      otherwise. */
  lemma NoGroupsLeft(springs: String, groups: String, collected: nat)
    requires ValidSprings(springs) && FirstGroup(groups).None?
    ensures Arrangements(springs, groups, collected) == if '#' in springs then 0 else 1
  {
  }

  /** A row that runs out while a group remains has no arrangement. */
  lemma RowExhausted(groups: String, collected: nat)
    requires FirstGroup(groups).Some?
    ensures Arrangements([], groups, collected) == 0
  {
  }

  /** An operational spring inside an unfinished group, or a damaged spring that makes the
      group too long, rules the row out. */
  lemma GroupBroken(springs: String, groups: String, collected: nat)
    requires ValidSprings(springs) && springs != [] && FirstGroup(groups).Some?
    requires (springs[0] == '.' && collected > 0) || (springs[0] == '#' && collected + 1 > FirstGroup(groups).value)
    ensures Arrangements(springs, groups, collected) == 0
  {
  }

  /** A damaged spring that completes the first group must end the row or be followed by a
      spring that is not damaged, and the rest of the row then holds the later groups. */
  lemma GroupCompleted(springs: String, groups: String, collected: nat)
    requires ValidSprings(springs) && springs != [] && springs[0] == '#'
    requires FirstGroup(groups).Some? && collected + 1 == FirstGroup(groups).value
    ensures |springs| > 1 ==> ValidSprings(springs[2..])
    ensures Arrangements(springs, groups, collected)
         == if |springs| == 1 then (if GroupHead(groups).1 == [] then 1 else 0)
            else if springs[1] == '#' then 0
            else Arrangements(springs[2..], GroupHead(groups).1, 0)
  {
  }

  /** A damaged spring that leaves the first group unfinished lengthens the current run. */
  lemma GroupGrows(springs: String, groups: String, collected: nat)
    requires ValidSprings(springs) && springs != [] && springs[0] == '#'
    requires FirstGroup(groups).Some? && collected + 1 < FirstGroup(groups).value
    ensures ValidSprings(springs[1..])
    ensures Arrangements(springs, groups, collected) == Arrangements(springs[1..], groups, collected + 1)
  {
  }

  /** An unknown first spring is counted both ways: as operational and as damaged. */
  lemma UnknownSplits(springs: String, groups: String, collected: nat)
    requires ValidSprings(springs) && springs != [] && springs[0] == '?' && FirstGroup(groups).Some?
    ensures ValidSprings("." + springs[1..]) && ValidSprings("#" + springs[1..])
    ensures Arrangements(springs, groups, collected)
         == Arrangements("." + springs[1..], groups, collected) + Arrangements("#" + springs[1..], groups, collected)
  {
    ReplaceHead(springs, '.');
    ReplaceHead(springs, '#');
  }

  // ---------------------------------------------------------------------------------------
  // What the recursion counts

  /** The closing of a run of `run` damaged springs: a group of that size, if any. */
  function Close(run: nat): seq<nat>
  {
    if run > 0 then [run] else []
  }

  /** The sizes of the maximal runs of damaged springs of a filled-in row that follows a run of
      `run` damaged springs, read from left to right. */
  function RunsFrom(s: String, run: nat): seq<nat>
  {
    if s == [] then Close(run)
    else if s[0] == '#' then RunsFrom(s[1..], run + 1)
    else Close(run) + RunsFrom(s[1..], 0)
  }

  /** The runs of damaged springs of a filled-in row. */
  function Runs(s: String): seq<nat>
  {
    RunsFrom(s, 0)
  }

  /** Each row of `fills` with `x` in front. */
  function Prefixed(x: char, fills: seq<String>): (r: seq<String>)
    ensures |r| == |fills|
  {
    seq(|fills|, i requires 0 <= i < |fills| => [x] + fills[i])
  }

  /** Every way to fill in the unknown springs, each '?' becoming '.' or '#'. */
  function Fills(s: String): (r: seq<String>)
  {
    if s == [] then [[]]
    else if s[0] == '?' then Prefixed('.', Fills(s[1..])) + Prefixed('#', Fills(s[1..]))
    else Prefixed(s[0], Fills(s[1..]))
  }

  /** How many of the filled-in rows, after a run of `run` damaged springs, have the runs
      `groups`. */
  function Matching(fills: seq<String>, run: nat, groups: seq<nat>): nat
  {
    if fills == [] then 0
    else (if RunsFrom(fills[0], run) == groups then 1 else 0) + Matching(fills[1..], run, groups)
  }

  /** The groups as the puzzle writes them: decimal numbers separated by commas. */
  function GroupsText(groups: seq<nat>): String
  {
    Join(seq(|groups|, i requires 0 <= i < |groups| => Decimal(groups[i])), ",")
  }

  lemma {:induction false} MatchingAppend(xs: seq<String>, ys: seq<String>, run: nat, groups: seq<nat>)
    ensures Matching(xs + ys, run, groups) == Matching(xs, run, groups) + Matching(ys, run, groups)
    decreases |xs|
  {
    if xs != [] {
      assert (xs + ys)[0] == xs[0] && (xs + ys)[1..] == xs[1..] + ys;
      MatchingAppend(xs[1..], ys, run, groups);
      assert Matching(xs + ys, run, groups)
          == (if RunsFrom(xs[0], run) == groups then 1 else 0) + Matching(xs[1..] + ys, run, groups);
    } else {
      assert xs + ys == ys;
    }
  }

  /** A damaged spring in front lengthens the current run. */
  lemma {:induction false} MatchingDamaged(fills: seq<String>, run: nat, groups: seq<nat>)
    ensures Matching(Prefixed('#', fills), run, groups) == Matching(fills, run + 1, groups)
    decreases |fills|
  {
    if fills != [] {
      assert Prefixed('#', fills)[1..] == Prefixed('#', fills[1..]);
      assert ([('#')] + fills[0])[1..] == fills[0];
      MatchingDamaged(fills[1..], run + 1 - 1, groups);
    }
  }

  /** An operational spring in front closes the current run, which must then be the first
      group. */
  lemma {:induction false} MatchingOperational(fills: seq<String>, run: nat, groups: seq<nat>)
    ensures Matching(Prefixed('.', fills), run, groups)
         == if run == 0 then Matching(fills, 0, groups)
            else if groups != [] && groups[0] == run then Matching(fills, 0, groups[1..])
            else 0
    decreases |fills|
  {
    if fills != [] {
      assert Prefixed('.', fills)[1..] == Prefixed('.', fills[1..]);
      assert (['.'] + fills[0])[1..] == fills[0];
      var rest := RunsFrom(fills[0], 0);
      if run > 0 && groups != [] && groups[0] == run {
        assert [run] + rest == groups <==> rest == groups[1..];
      } else if run > 0 {
        assert ([run] + rest)[0] == run;
      }
      MatchingOperational(fills[1..], run, groups);
    }
  }

  /** A current run is never lost: the first run is at least as long. */
  lemma {:induction false} RunsFromHead(s: String, run: nat)
    requires run > 0
    ensures |RunsFrom(s, run)| > 0 && RunsFrom(s, run)[0] >= run
    decreases |s|
  {
    if s != [] && s[0] == '#' {
      RunsFromHead(s[1..], run + 1);
    }
  }

  /** No filled-in row matches when the current run is already longer than the first group,
      or when there is no group for it. */
  lemma {:induction false} MatchingNone(fills: seq<String>, run: nat, groups: seq<nat>)
    requires run > 0 && (groups == [] || groups[0] < run)
    ensures Matching(fills, run, groups) == 0
    decreases |fills|
  {
    if fills != [] {
      RunsFromHead(fills[0], run);
      MatchingNone(fills[1..], run, groups);
    }
  }

  /** Without groups, exactly one filling matches, all operational, unless the row already
      holds a damaged spring. */
  lemma {:induction false} MatchingNoGroups(s: String)
    requires ValidSprings(s)
    ensures Matching(Fills(s), 0, []) == if '#' in s then 0 else 1
    decreases |s|
  {
    if s == [] {
      assert Fills(s) == [[]];
    } else {
      var t := s[1..];
      assert ValidSprings(t);
      MatchingNoGroups(t);
      MatchingNone(Fills(t), 1, []);
      MatchingDamaged(Fills(t), 0, []);
      MatchingOperational(Fills(t), 0, []);
      assert '#' in s <==> s[0] == '#' || '#' in t;
      if s[0] == '?' {
        MatchingAppend(Prefixed('.', Fills(t)), Prefixed('#', Fills(t)), 0, []);
      }
    }
  }

  /** Groups in range of `u64`, as `parse` accepts them. */
  predicate GroupsFit(groups: seq<nat>)
  {
    forall i :: 0 <= i < |groups| ==> groups[i] < U64_LIMIT
  }

  /** `text` lists the groups: no text for no groups, else a first group that parses to the
      first value, followed by text that lists the others. */
  predicate Describes(text: String, groups: seq<nat>)
    decreases |groups|
  {
    if groups == [] then text == []
    else FirstGroup(text) == Some(groups[0]) && Describes(GroupHead(text).1, groups[1..])
  }

  /** An empty list of groups has no first group. */
  lemma NoGroupText()
    ensures FirstGroup([]) == None
  {
    assert GroupHead([]) == ([], []);
  }

  /** The groups written out as the puzzle writes them are described by their text. */
  lemma {:induction false} GroupsTextDescribes(groups: seq<nat>)
    requires GroupsFit(groups)
    ensures Describes(GroupsText(groups), groups)
    decreases |groups|
  {
    var texts := seq(|groups|, i requires 0 <= i < |groups| => Decimal(groups[i]));
    if groups != [] {
      assert ',' !in texts[0] by {
        assert AllDigits(texts[0]);
      }
      ParseDecimal(groups[0], U64_LIMIT);
      var restTexts := seq(|groups[1..]|, i requires 0 <= i < |groups[1..]| => Decimal(groups[1..][i]));
      assert texts[1..] == restTexts;
      if |groups| == 1 {
        NoOccurrence(texts[0], ",");
      } else {
        FindAfter(texts[0], ",", Join(texts[1..], ","));
      }
      GroupsTextDescribes(groups[1..]);
    }
  }

  /** The recursion counts the fillings of the row whose runs of damaged springs are the
      groups, after a run of `collected` damaged springs shorter than the first group. */
  lemma {:induction false} ArrangementsMatch(springs: String, text: String, groups: seq<nat>, collected: nat)
    requires ValidSprings(springs) && Describes(text, groups)
    requires collected == 0 || (groups != [] && collected < groups[0])
    ensures Arrangements(springs, text, collected) == Matching(Fills(springs), collected, groups)
    decreases |springs|, Unknowns(springs), 3
  {
    if groups == [] || springs == [] {
      ArrangementsEnd(springs, text, groups, collected);
    } else if springs[0] == '#' {
      DamagedHead(springs, text, groups, collected);
    } else if springs[0] == '.' {
      OperationalHead(springs, text, groups, collected);
    } else {
      UnknownHead(springs, text, groups, collected);
    }
  }

  /** The cases of `ArrangementsMatch` where the groups or the row have run out. */
  lemma ArrangementsEnd(springs: String, text: String, groups: seq<nat>, collected: nat)
    requires ValidSprings(springs) && Describes(text, groups) && (groups == [] || springs == [])
    requires collected == 0 || (groups != [] && collected < groups[0])
    ensures Arrangements(springs, text, collected) == Matching(Fills(springs), collected, groups)
  {
    if groups == [] {
      assert text == [] && FirstGroup(text).None? by { NoGroupText(); }
      NoGroupsLeft(springs, text, collected);
      MatchingNoGroups(springs);
    } else {
      RowExhausted(text, collected);
      assert Fills(springs) == [[]];
      assert Close(collected) != groups by {
        if collected > 0 { assert Close(collected)[0] == collected; }
      }
    }
  }

  /** The case of `ArrangementsMatch` where the row starts with an unknown spring. */
  lemma {:induction false} UnknownHead(springs: String, text: String, groups: seq<nat>, collected: nat)
    requires ValidSprings(springs) && Describes(text, groups) && |springs| > 0 && springs[0] == '?'
    requires groups != [] && (collected == 0 || collected < groups[0])
    ensures Arrangements(springs, text, collected) == Matching(Fills(springs), collected, groups)
    decreases |springs|, Unknowns(springs), 1
  {
    var t := springs[1..];
    UnknownSplits(springs, text, collected);
    var dot, hash := "." + t, "#" + t;
    assert dot[1..] == t && hash[1..] == t;
    assert Fills(springs) == Fills(dot) + Fills(hash);
    MatchingAppend(Fills(dot), Fills(hash), collected, groups);
    OperationalHead(dot, text, groups, collected);
    DamagedHead(hash, text, groups, collected);
  }

  /** The case of `ArrangementsMatch` where the row starts with an operational spring. */
  lemma {:induction false} OperationalHead(springs: String, text: String, groups: seq<nat>, collected: nat)
    requires ValidSprings(springs) && Describes(text, groups) && |springs| > 0 && springs[0] == '.'
    requires groups != [] && (collected == 0 || collected < groups[0])
    ensures Arrangements(springs, text, collected) == Matching(Fills(springs), collected, groups)
    decreases |springs|, Unknowns(springs), 1
  {
    var t := springs[1..];
    assert ValidSprings(t);
    assert Fills(springs) == Prefixed('.', Fills(t));
    MatchingOperational(Fills(t), collected, groups);
    if collected == 0 {
      ArrangementsMatch(t, text, groups, 0);
    }
  }

  /** The case of `ArrangementsMatch` where the row starts with a damaged spring. */
  lemma {:induction false} DamagedHead(springs: String, text: String, groups: seq<nat>, collected: nat)
    requires ValidSprings(springs) && Describes(text, groups) && |springs| > 0 && springs[0] == '#'
    requires groups != [] && (collected == 0 || collected < groups[0])
    ensures Arrangements(springs, text, collected) == Matching(Fills(springs), collected, groups)
    decreases |springs|, Unknowns(springs), 2
  {
    var t := springs[1..];
    assert ValidSprings(t);
    assert Fills(springs) == Prefixed('#', Fills(t));
    MatchingDamaged(Fills(t), collected, groups);
    if collected + 1 > groups[0] {
      MatchingNone(Fills(t), collected + 1, groups);
    } else if collected + 1 == groups[0] {
      DamagedRunEnds(springs, text, groups, collected);
    } else {
      DamagedRunGrows(springs, text, groups, collected);
    }
  }

  /** The case of `DamagedHead` where the first group is not yet complete. */
  lemma {:induction false} DamagedRunGrows(springs: String, text: String, groups: seq<nat>, collected: nat)
    requires ValidSprings(springs) && Describes(text, groups) && |springs| > 0 && springs[0] == '#'
    requires groups != [] && collected + 1 < groups[0]
    ensures Arrangements(springs, text, collected) == Matching(Fills(springs[1..]), collected + 1, groups)
    decreases |springs|, Unknowns(springs), 0
  {
    var rest := springs[1..];
    assert ValidSprings(rest);
    DamagedStep(springs, text, groups[0], collected);
    ArrangementsMatch(rest, text, groups, collected + 1);
  }

  /** A damaged spring that does not finish the group only lengthens it. */
  lemma DamagedStep(springs: String, text: String, group: nat, collected: nat)
    requires ValidSprings(springs) && |springs| > 0 && springs[0] == '#'
    requires FirstGroup(text) == Some(group) && collected + 1 < group
    ensures ValidSprings(springs[1..])
    ensures Arrangements(springs, text, collected) == Arrangements(springs[1..], text, collected + 1)
  {
  }

  /** The case of `ArrangementsMatch` where a damaged spring completes the first group: the
      next spring, if any, must be operational, and the rest of the row must match the later
      groups. */
  lemma {:induction false} DamagedRunEnds(springs: String, text: String, groups: seq<nat>, collected: nat)
    requires ValidSprings(springs) && Describes(text, groups) && |springs| > 0 && springs[0] == '#'
    requires groups != [] && collected + 1 == groups[0]
    ensures Arrangements(springs, text, collected) == Matching(Fills(springs[1..]), collected + 1, groups)
    decreases |springs|, Unknowns(springs), 1
  {
    if |springs| == 1 || springs[1] == '#' {
      RunEndsAtEdge(springs, text, groups, collected);
    } else {
      GapAfterRun(springs, text, groups, collected);
    }
  }

  /** The cases of `DamagedRunEnds` where the row ends or a damaged spring follows. */
  lemma RunEndsAtEdge(springs: String, text: String, groups: seq<nat>, collected: nat)
    requires ValidSprings(springs) && Describes(text, groups) && |springs| > 0 && springs[0] == '#'
    requires groups != [] && collected + 1 == groups[0]
    requires |springs| == 1 || springs[1] == '#'
    ensures Arrangements(springs, text, collected) == Matching(Fills(springs[1..]), collected + 1, groups)
  {
    RunEndsUnfold(springs, text, groups, collected);
    var t := springs[1..];
    if t == [] {
      assert Fills(t) == [[]];
      assert [groups[0]] == groups <==> groups[1..] == [];
    } else {
      var rest := t[1..];
      assert Fills(t) == Prefixed('#', Fills(rest));
      MatchingDamaged(Fills(rest), groups[0], groups);
      MatchingNone(Fills(rest), groups[0] + 1, groups);
    }
  }

  /** One step of the recursion on a damaged spring that completes the first group. */
  lemma RunEndsUnfold(springs: String, text: String, groups: seq<nat>, collected: nat)
    requires ValidSprings(springs) && Describes(text, groups) && |springs| > 0 && springs[0] == '#'
    requires groups != [] && collected + 1 == groups[0]
    ensures Describes(GroupHead(text).1, groups[1..])
    ensures GroupHead(text).1 == [] <==> groups[1..] == []
    ensures |springs| > 1 ==> ValidSprings(springs[2..])
    ensures Arrangements(springs, text, collected)
         == if |springs| == 1 then (if groups[1..] == [] then 1 else 0)
            else if springs[1] == '#' then 0
            else Arrangements(springs[2..], GroupHead(text).1, 0)
  {
    var later := groups[1..];
    var laterText := GroupHead(text).1;
    assert Describes(laterText, later);
    if later == [] {
      assert laterText == [];
    } else {
      assert FirstGroup(laterText).Some?;
      assert laterText != [] by {
        if laterText == [] { NoGroupText(); }
      }
    }
  }

  /** The case of `DamagedRunEnds` where a spring that can be operational follows the
      completed group. */
  lemma {:induction false} GapAfterRun(springs: String, text: String, groups: seq<nat>, collected: nat)
    requires ValidSprings(springs) && Describes(text, groups) && |springs| > 1 && springs[0] == '#' && springs[1] != '#'
    requires groups != [] && collected + 1 == groups[0]
    ensures Arrangements(springs, text, collected) == Matching(Fills(springs[1..]), collected + 1, groups)
    decreases |springs|, Unknowns(springs), 0
  {
    RunEndsUnfold(springs, text, groups, collected);
    var group := groups[0];
    var t, rest := springs[1..], springs[2..];
    assert t[1..] == rest;
    MatchingOperational(Fills(rest), group, groups);
    ArrangementsMatch(rest, GroupHead(text).1, groups[1..], 0);
    if t[0] == '?' {
      assert Fills(t) == Prefixed('.', Fills(rest)) + Prefixed('#', Fills(rest));
      MatchingAppend(Prefixed('.', Fills(rest)), Prefixed('#', Fills(rest)), group, groups);
      MatchingDamaged(Fills(rest), group, groups);
      MatchingNone(Fills(rest), group + 1, groups);
    } else {
      assert Fills(t) == Prefixed('.', Fills(rest));
    }
  }

  /** The count for a whole row: the number of ways to replace each '?' by '.' or '#' so that
      the runs of '#' are exactly the groups. */
  lemma ArrangementsCount(springs: String, groups: seq<nat>)
    requires ValidSprings(springs) && GroupsFit(groups)
    ensures Arrangements(springs, GroupsText(groups), 0) == Matching(Fills(springs), 0, groups)
  {
    GroupsTextDescribes(groups);
    ArrangementsMatch(springs, GroupsText(groups), groups, 0);
  }

  /** A row without unknown springs is its only filling. */
  lemma {:induction false} FillsKnown(s: String)
    requires Unknowns(s) == 0
    ensures Fills(s) == [s]
  {
    if s != [] {
      FillsKnown(s[1..]);
      assert [s[0]] + s[1..] == s;
    }
  }

  /** A fully specified row counts once when its runs are the groups and not at all otherwise. */
  lemma KnownRow(springs: String, groups: seq<nat>)
    requires ValidSprings(springs) && GroupsFit(groups) && Unknowns(springs) == 0
    ensures Arrangements(springs, GroupsText(groups), 0) == if Runs(springs) == groups then 1 else 0
  {
    ArrangementsCount(springs, groups);
    FillsKnown(springs);
  }

  // ---------------------------------------------------------------------------------------
  // Lines and unfolding

  /** The springs of a line, before its first space, are springs. */
  predicate ValidLine(line: String)
  {
    match SplitOnce(line, " ")
    case Some((springs, _)) => ValidSprings(springs)
    case None => true
  }

  /** `possible_arrangements_for_line`: a line without a space has no arrangement. */
  function LineArrangements(line: String): nat
    requires ValidLine(line)
  {
    match SplitOnce(line, " ")
    case Some((springs, groups)) => Arrangements(springs, groups, 0)
    case None => 0
  }

  /** Five copies of `s` with `sep` between consecutive copies. */
  function Unfold(s: String, sep: char): String
  {
    s + [sep] + s + [sep] + s + [sep] + s + [sep] + s
  }

  /** The first `n` copies of `s`, with `sep` between consecutive copies. */
  function Repeated(s: String, sep: char, n: nat): String
  {
    if n <= 1 then (if n == 0 then [] else s) else Repeated(s, sep, n - 1) + [sep] + s
  }

  /** The `push_str`/`push` loop of `possible_arrangements_for_unfolded_line`. */
  method UnfoldText(s: String, sep: char) returns (repeated: String)
    ensures repeated == Unfold(s, sep)
  {
    repeated := [];
    for ix := 1 to 6
      invariant repeated == if ix == 1 then [] else if ix == 6 then Repeated(s, sep, 5) else Repeated(s, sep, ix - 1) + [sep]
    {
      if ix == 1 {
        assert repeated + s == s;
      }
      repeated := repeated + s;
      assert repeated == Repeated(s, sep, ix);
      if ix < 5 {
        repeated := repeated + [sep];
      }
    }
    assert Repeated(s, sep, 2) == s + [sep] + s;
    assert Repeated(s, sep, 3) == s + [sep] + s + [sep] + s;
    assert Repeated(s, sep, 4) == s + [sep] + s + [sep] + s + [sep] + s;
  }

  /** Unfolding keeps a row a row of springs: five copies, the four joins unknown. */
  lemma {:induction false} UnfoldSprings(s: String)
    requires ValidSprings(s)
    ensures ValidSprings(Unfold(s, '?'))
    ensures |Unfold(s, '?')| == 5 * |s| + 4
    ensures Unknowns(Unfold(s, '?')) == 5 * Unknowns(s) + 4
  {
    var u := s + "?";
    var two := u + u;
    var four := two + two;
    assert Unfold(s, '?') == four + s;
    assert Unknowns("?") == 1;
    UnknownsAppend(s, "?");
    UnknownsAppend(u, u);
    UnknownsAppend(two, two);
    UnknownsAppend(four, s);
  }

  lemma {:induction false} UnknownsAppend(a: String, b: String)
    ensures Unknowns(a + b) == Unknowns(a) + Unknowns(b)
    decreases |a|
  {
    if a != [] {
      assert (a + b)[0] == a[0] && (a + b)[1..] == a[1..] + b;
      UnknownsAppend(a[1..], b);
      assert Unknowns(a + b) == (if a[0] == '?' then 1 else 0) + Unknowns(a[1..] + b);
    } else {
      assert a + b == b;
    }
  }

  /** Joining with ',' the texts of two lists of groups writes their concatenation. */
  lemma {:induction false} GroupsTextAppend(xs: seq<nat>, ys: seq<nat>)
    requires xs != [] && ys != []
    ensures GroupsText(xs) + "," + GroupsText(ys) == GroupsText(xs + ys)
    decreases |xs|
  {
    var all := xs + ys;
    var texts := seq(|all|, i requires 0 <= i < |all| => Decimal(all[i]));
    assert texts[1..] == seq(|all[1..]|, i requires 0 <= i < |all[1..]| => Decimal(all[1..][i]));
    if |xs| > 1 {
      GroupsTextAppend(xs[1..], ys);
      assert xs[1..] + ys == all[1..];
      assert GroupsText(xs) == Decimal(xs[0]) + "," + GroupsText(xs[1..]) by {
        var xt := seq(|xs|, i requires 0 <= i < |xs| => Decimal(xs[i]));
        assert xt[1..] == seq(|xs[1..]|, i requires 0 <= i < |xs[1..]| => Decimal(xs[1..][i]));
      }
    } else {
      assert all[1..] == ys;
    }
  }

  /** The unfolded groups are the groups five times over. */
  lemma UnfoldGroups(groups: seq<nat>)
    requires groups != []
    ensures Unfold(GroupsText(groups), ',') == GroupsText(groups + groups + groups + groups + groups)
  {
    var g := GroupsText(groups);
    GroupsTextAppend(groups, groups);
    GroupsTextAppend(groups + groups, groups);
    GroupsTextAppend(groups + groups + groups, groups);
    GroupsTextAppend(groups + groups + groups + groups, groups);
  }

  /** An unfolded row counts the fillings of five copies of the row, joined by unknown
      springs, whose runs are the groups five times over. */
  lemma UnfoldedCount(springs: String, groups: seq<nat>)
    requires ValidSprings(springs) && GroupsFit(groups) && groups != []
    ensures ValidSprings(Unfold(springs, '?'))
    ensures Arrangements(Unfold(springs, '?'), Unfold(GroupsText(groups), ','), 0)
         == Matching(Fills(Unfold(springs, '?')), 0, groups + groups + groups + groups + groups)
  {
    UnfoldSprings(springs);
    UnfoldGroups(groups);
    var all := groups + groups + groups + groups + groups;
    GroupsFitAppend(groups, groups);
    GroupsFitAppend(groups + groups, groups);
    GroupsFitAppend(groups + groups + groups, groups);
    GroupsFitAppend(groups + groups + groups + groups, groups);
    ArrangementsCount(Unfold(springs, '?'), all);
  }

  lemma GroupsFitAppend(xs: seq<nat>, ys: seq<nat>)
    requires GroupsFit(xs) && GroupsFit(ys)
    ensures GroupsFit(xs + ys)
  {
    forall i | 0 <= i < |xs + ys| ensures (xs + ys)[i] < U64_LIMIT {
      if i >= |xs| {
        assert (xs + ys)[i] == ys[i - |xs|];
      }
    }
  }

  /** `possible_arrangements_for_unfolded_line`. */
  function UnfoldedLineArrangements(line: String): nat
    requires ValidLine(line)
  {
    match SplitOnce(line, " ")
    case Some((springs, groups)) =>
      UnfoldSprings(springs);
      Arrangements(Unfold(springs, '?'), Unfold(groups, ','), 0)
    case None => 0
  }

  /** The sum of `count` over the lines. */
  function SumLines(lines: seq<String>, unfold: bool): nat
    requires forall k :: 0 <= k < |lines| ==> ValidLine(lines[k])
  {
    if lines == [] then 0
    else
      var line := lines[|lines| - 1];
      SumLines(lines[..|lines| - 1], unfold)
        + if unfold then UnfoldedLineArrangements(line) else LineArrangements(line)
  }

  predicate ValidInput(input: String)
  {
    forall k :: 0 <= k < |Lines(input)| ==> ValidLine(Lines(input)[k])
  }

  // ---------------------------------------------------------------------------------------
  // The memoising calculator

  /** The cache key: the source writes it as "{springs}--{groups}--{collected}", which names
      one triple when the springs hold no '-'. */
  datatype Key = Key(springs: String, groups: String, collected: nat)

  /** `ArrangementCalculator`: the cache of the counts computed so far. */
  class ArrangementCalculator {
    var cache: map<Key, nat>

    /** Every cached count is the count of its key. */
    ghost predicate Valid()
      reads this
    {
      forall k :: k in cache ==> ValidSprings(k.springs) && cache[k] == Arrangements(k.springs, k.groups, k.collected)
    }

    constructor ()
      ensures Valid() && cache == map[]
    {
      cache := map[];
    }

    /** `possible_arrangements_for_section`: a cached count when there is one, else the count
        computed and then cached. */
    method PossibleArrangementsForSection(springs: String, groups: String, collected: nat) returns (value: nat)
      requires Valid() && ValidSprings(springs)
      modifies this
      ensures Valid() && value == Arrangements(springs, groups, collected)
      ensures forall k :: k in old(cache) ==> k in cache && cache[k] == old(cache)[k]
      decreases |springs|, Unknowns(springs), 1
    {
      var key := Key(springs, groups, collected);
      if key in cache {
        value := cache[key];
      } else {
        value := CalculatePossibleArrangementsForSection(springs, groups, collected);
        cache := cache[key := value];
      }
    }

    /** `calculate_possible_arrangements_for_section`, whose recursive calls go through the
        cache. */
    method CalculatePossibleArrangementsForSection(springs: String, groups: String, collected: nat) returns (value: nat)
      requires Valid() && ValidSprings(springs)
      modifies this
      ensures Valid() && value == Arrangements(springs, groups, collected)
      ensures forall k :: k in old(cache) ==> k in cache && cache[k] == old(cache)[k]
      decreases |springs|, Unknowns(springs), 0
    {
      var (groupText, laterGroups) := GroupHead(groups);
      var group := ParseUnsigned(groupText, U64_LIMIT);
      assert group == FirstGroup(groups);
      if group.None? {
        NoGroupsLeft(springs, groups, collected);
        value := if springs == [] then 1 else if '#' in springs then 0 else 1;
      } else if springs == [] {
        RowExhausted(groups, collected);
        value := 0;
      } else if springs[0] == '#' {
        if collected + 1 > group.value {
          GroupBroken(springs, groups, collected);
          value := 0;
        } else if collected + 1 == group.value {
          GroupCompleted(springs, groups, collected);
          if |springs| == 1 {
            value := if laterGroups == [] then 1 else 0;
          } else if springs[1] == '#' {
            value := 0;
          } else {
            value := PossibleArrangementsForSection(springs[2..], laterGroups, 0);
          }
        } else {
          GroupGrows(springs, groups, collected);
          value := PossibleArrangementsForSection(springs[1..], groups, collected + 1);
        }
      } else if springs[0] == '.' {
        if collected > 0 {
          GroupBroken(springs, groups, collected);
          value := 0;
        } else {
          assert Arrangements(springs, groups, collected) == Arrangements(springs[1..], groups, 0);
          value := PossibleArrangementsForSection(springs[1..], groups, 0);
        }
      } else {
        UnknownSplits(springs, groups, collected);
        ReplaceHead(springs, '.');
        ReplaceHead(springs, '#');
        var operational := PossibleArrangementsForSection(ReplaceFirst(springs, '?', '.'), groups, collected);
        var damaged := PossibleArrangementsForSection(ReplaceFirst(springs, '?', '#'), groups, collected);
        value := operational + damaged;
      }
    }

    method PossibleArrangements(springs: String, groups: String) returns (value: nat)
      requires Valid() && ValidSprings(springs)
      modifies this
      ensures Valid() && value == Arrangements(springs, groups, 0)
    {
      value := PossibleArrangementsForSection(springs, groups, 0);
    }

    method PossibleArrangementsForLine(line: String) returns (value: nat)
      requires Valid() && ValidLine(line)
      modifies this
      ensures Valid() && value == LineArrangements(line)
    {
      var halves := SplitOnce(line, " ");
      if halves.None? {
        return 0;
      }
      var (springs, groups) := halves.value;
      value := PossibleArrangements(springs, groups);
    }

    method PossibleArrangementsForUnfoldedLine(line: String) returns (value: nat)
      requires Valid() && ValidLine(line)
      modifies this
      ensures Valid() && value == UnfoldedLineArrangements(line)
    {
      var halves := SplitOnce(line, " ");
      if halves.None? {
        return 0;
      }
      var (springs, groups) := halves.value;
      var repeatedSprings := UnfoldText(springs, '?');
      var repeatedGroups := UnfoldText(groups, ',');
      UnfoldSprings(springs);
      value := PossibleArrangements(repeatedSprings, repeatedGroups);
    }
  }

  /** `part_one` and `part_two`: one calculator, and so one cache, for all the lines. */
  method SumOfArrangements(input: String, unfold: bool) returns (total: nat)
    requires ValidInput(input)
    ensures total == SumLines(Lines(input), unfold)
  {
    var lines := Lines(input);
    var calculator := new ArrangementCalculator();
    total := 0;
    for i := 0 to |lines|
      invariant calculator.Valid()
      invariant total == SumLines(lines[..i], unfold)
    {
      var count;
      if unfold {
        count := calculator.PossibleArrangementsForUnfoldedLine(lines[i]);
      } else {
        count := calculator.PossibleArrangementsForLine(lines[i]);
      }
      assert lines[..i + 1][..i] == lines[..i];
      total := total + count;
    }
    assert lines[..|lines|] == lines;
  }
}

module Day12Examples {
  import opened Text
  import opened Day12

  /** "1,1,3" lists the groups 1, 1 and 3. */
  lemma ExampleGroups()
    ensures GroupsText([1, 1, 3]) == "1,1,3"
  {
    assert Decimal(1) == "1" && Decimal(3) == "3";
    var texts := seq(3, i requires 0 <= i < 3 => Decimal([1, 1, 3][i]));
    assert texts == ["1", "1", "3"];
    assert Join(["3"], ",") == "3";
    assert Join(["1", "3"], ",") == "1,3";
  }

  /** A row that is fully known counts once when its runs are the groups. */
  lemma SimpleMatch()
    ensures Arrangements("#.#.###", "1,1,3", 0) == 1
  {
    ExampleGroups();
    assert Runs("#.#.###") == [1, 1, 3];
    KnownRow("#.#.###", [1, 1, 3]);
  }

  /** A row whose first run is too long does not count. */
  lemma NoMatch()
    ensures Arrangements("##..###", "1,1,3", 0) == 0
  {
    ExampleGroups();
    assert Runs("##..###")[0] == 2;
    KnownRow("##..###", [1, 1, 3]);
  }
}
