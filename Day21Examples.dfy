/** The example garden of the Day 21 tests: its first six steps worked out plot by plot. */
module Day21Examples {
  import opened Wrappers
  import opened Day21

  /** The rocks of the 11 by 11 example garden, by cell index `row * 11 + column`. */
  predicate ExampleRock(i: int)
  {
    || i == 16 || i == 17 || i == 18 || i == 20 || i == 23 || i == 24 || i == 25 || i == 27
    || i == 28 || i == 31 || i == 35 || i == 37 || i == 41 || i == 48 || i == 50 || i == 56
    || i == 57 || i == 61 || i == 62 || i == 63 || i == 64 || i == 67 || i == 68 || i == 71
    || i == 75 || i == 84 || i == 85 || i == 89 || i == 90 || i == 92 || i == 94 || i == 95
    || i == 96 || i == 97 || i == 100 || i == 101 || i == 104 || i == 105 || i == 107 || i == 108
  }

  /** The example garden, started in its centre cell (5, 5). */
  function ExampleGarden(): (g: Garden)
    ensures Valid(g)
  {
    Garden(11, 11, 60, ExampleRockFlags())
  }

  function ExampleRockFlags(): (flags: seq<bool>)
    ensures |flags| == 121
  {
    seq(121, ExampleRock)
  }

  // The rock flags of the cells next to the plots the example's first six steps reach, a
  // few at a time.

  lemma ExampleCells0()
    ensures var flags := ExampleRockFlags();
            flags[18] && flags[25] && flags[27] && flags[28] && !flags[29]
  {
  }

  lemma ExampleCells1()
    ensures var flags := ExampleRockFlags();
            !flags[30] && !flags[34] && flags[35] && !flags[36] && flags[37]
  {
  }

  lemma ExampleCells2()
    ensures var flags := ExampleRockFlags();
            !flags[38] && !flags[39] && !flags[40] && flags[41] && !flags[44]
  {
  }

  lemma ExampleCells3()
    ensures var flags := ExampleRockFlags();
            !flags[45] && !flags[46] && !flags[47] && flags[48] && !flags[49]
  {
  }

  lemma ExampleCells4()
    ensures var flags := ExampleRockFlags();
            flags[50] && !flags[51] && !flags[52] && flags[56] && flags[57]
  {
  }

  lemma ExampleCells5()
    ensures var flags := ExampleRockFlags();
            !flags[58] && !flags[59] && !flags[60] && flags[61] && flags[62]
  {
  }

  lemma ExampleCells6()
    ensures var flags := ExampleRockFlags();
            flags[68] && !flags[69] && !flags[70] && flags[71] && !flags[72]
  {
  }

  lemma ExampleCells7()
    ensures var flags := ExampleRockFlags();
            !flags[78] && !flags[79] && !flags[80] && !flags[81] && !flags[82]
  {
  }

  lemma ExampleCells8()
    ensures var flags := ExampleRockFlags();
            !flags[83] && flags[84] && flags[90] && !flags[91] && flags[92]
  {
  }

  lemma ExampleCells9()
    ensures var flags := ExampleRockFlags();
            !flags[93] && flags[94] && !flags[102] && flags[104]
  {
  }

  lemma ExampleMoves29()
    ensures Moves(ExampleGarden(), 29) == {30, 40}
  {
    var g := ExampleGarden();
    MovesListed(g, 29);
    assert StepInDirection(g, 29, North) == Some(18) && StepInDirection(g, 29, East) == Some(30);
    assert StepInDirection(g, 29, South) == Some(40) && StepInDirection(g, 29, West) == Some(28);
    ExampleCells0();
    ExampleCells1();
    ExampleCells2();
  }

  lemma ExampleMoves36()
    ensures Moves(ExampleGarden(), 36) == {47}
  {
    var g := ExampleGarden();
    MovesListed(g, 36);
    assert StepInDirection(g, 36, North) == Some(25) && StepInDirection(g, 36, East) == Some(37);
    assert StepInDirection(g, 36, South) == Some(47) && StepInDirection(g, 36, West) == Some(35);
    ExampleCells0();
    ExampleCells1();
    ExampleCells3();
  }

  lemma ExampleMoves38()
    ensures Moves(ExampleGarden(), 38) == {39, 49}
  {
    var g := ExampleGarden();
    MovesListed(g, 38);
    assert StepInDirection(g, 38, North) == Some(27) && StepInDirection(g, 38, East) == Some(39);
    assert StepInDirection(g, 38, South) == Some(49) && StepInDirection(g, 38, West) == Some(37);
    ExampleCells0();
    ExampleCells1();
    ExampleCells2();
    ExampleCells3();
  }

  lemma ExampleMoves39()
    ensures Moves(ExampleGarden(), 39) == {38, 40}
  {
    var g := ExampleGarden();
    MovesListed(g, 39);
    assert StepInDirection(g, 39, North) == Some(28) && StepInDirection(g, 39, East) == Some(40);
    assert StepInDirection(g, 39, South) == Some(50) && StepInDirection(g, 39, West) == Some(38);
    ExampleCells0();
    ExampleCells2();
    ExampleCells4();
  }

  lemma ExampleMoves40()
    ensures Moves(ExampleGarden(), 40) == {29, 39, 51}
  {
    var g := ExampleGarden();
    MovesListed(g, 40);
    assert StepInDirection(g, 40, North) == Some(29) && StepInDirection(g, 40, East) == Some(41);
    assert StepInDirection(g, 40, South) == Some(51) && StepInDirection(g, 40, West) == Some(39);
    ExampleCells0();
    ExampleCells2();
    ExampleCells4();
  }

  lemma ExampleMoves45()
    ensures Moves(ExampleGarden(), 45) == {34, 44, 46}
  {
    var g := ExampleGarden();
    MovesListed(g, 45);
    assert StepInDirection(g, 45, North) == Some(34) && StepInDirection(g, 45, East) == Some(46);
    assert StepInDirection(g, 45, South) == Some(56) && StepInDirection(g, 45, West) == Some(44);
    ExampleCells1();
    ExampleCells2();
    ExampleCells3();
    ExampleCells4();
  }

  lemma ExampleMoves46()
    ensures Moves(ExampleGarden(), 46) == {45, 47}
  {
    var g := ExampleGarden();
    MovesListed(g, 46);
    assert StepInDirection(g, 46, North) == Some(35) && StepInDirection(g, 46, East) == Some(47);
    assert StepInDirection(g, 46, South) == Some(57) && StepInDirection(g, 46, West) == Some(45);
    ExampleCells1();
    ExampleCells3();
    ExampleCells4();
  }

  lemma ExampleMoves47()
    ensures Moves(ExampleGarden(), 47) == {36, 46, 58}
  {
    var g := ExampleGarden();
    MovesListed(g, 47);
    assert StepInDirection(g, 47, North) == Some(36) && StepInDirection(g, 47, East) == Some(48);
    assert StepInDirection(g, 47, South) == Some(58) && StepInDirection(g, 47, West) == Some(46);
    ExampleCells1();
    ExampleCells3();
    ExampleCells5();
  }

  lemma ExampleMoves49()
    ensures Moves(ExampleGarden(), 49) == {38, 60}
  {
    var g := ExampleGarden();
    MovesListed(g, 49);
    assert StepInDirection(g, 49, North) == Some(38) && StepInDirection(g, 49, East) == Some(50);
    assert StepInDirection(g, 49, South) == Some(60) && StepInDirection(g, 49, West) == Some(48);
    ExampleCells2();
    ExampleCells3();
    ExampleCells4();
    ExampleCells5();
  }

  lemma ExampleMoves51()
    ensures Moves(ExampleGarden(), 51) == {40, 52}
  {
    var g := ExampleGarden();
    MovesListed(g, 51);
    assert StepInDirection(g, 51, North) == Some(40) && StepInDirection(g, 51, East) == Some(52);
    assert StepInDirection(g, 51, South) == Some(62) && StepInDirection(g, 51, West) == Some(50);
    ExampleCells2();
    ExampleCells4();
    ExampleCells5();
  }

  lemma ExampleMoves58()
    ensures Moves(ExampleGarden(), 58) == {47, 59, 69}
  {
    var g := ExampleGarden();
    MovesListed(g, 58);
    assert StepInDirection(g, 58, North) == Some(47) && StepInDirection(g, 58, East) == Some(59);
    assert StepInDirection(g, 58, South) == Some(69) && StepInDirection(g, 58, West) == Some(57);
    ExampleCells3();
    ExampleCells4();
    ExampleCells5();
    ExampleCells6();
  }

  lemma ExampleMoves59()
    ensures Moves(ExampleGarden(), 59) == {58, 60, 70}
  {
    var g := ExampleGarden();
    MovesListed(g, 59);
    assert StepInDirection(g, 59, North) == Some(48) && StepInDirection(g, 59, East) == Some(60);
    assert StepInDirection(g, 59, South) == Some(70) && StepInDirection(g, 59, West) == Some(58);
    ExampleCells3();
    ExampleCells5();
    ExampleCells6();
  }

  lemma ExampleMoves60()
    ensures Moves(ExampleGarden(), 60) == {49, 59}
  {
    var g := ExampleGarden();
    MovesListed(g, 60);
    assert StepInDirection(g, 60, North) == Some(49) && StepInDirection(g, 60, East) == Some(61);
    assert StepInDirection(g, 60, South) == Some(71) && StepInDirection(g, 60, West) == Some(59);
    ExampleCells3();
    ExampleCells5();
    ExampleCells6();
  }

  lemma ExampleMoves69()
    ensures Moves(ExampleGarden(), 69) == {58, 70, 80}
  {
    var g := ExampleGarden();
    MovesListed(g, 69);
    assert StepInDirection(g, 69, North) == Some(58) && StepInDirection(g, 69, East) == Some(70);
    assert StepInDirection(g, 69, South) == Some(80) && StepInDirection(g, 69, West) == Some(68);
    ExampleCells5();
    ExampleCells6();
    ExampleCells7();
  }

  lemma ExampleMoves70()
    ensures Moves(ExampleGarden(), 70) == {59, 69, 81}
  {
    var g := ExampleGarden();
    MovesListed(g, 70);
    assert StepInDirection(g, 70, North) == Some(59) && StepInDirection(g, 70, East) == Some(71);
    assert StepInDirection(g, 70, South) == Some(81) && StepInDirection(g, 70, West) == Some(69);
    ExampleCells5();
    ExampleCells6();
    ExampleCells7();
  }

  lemma ExampleMoves79()
    ensures Moves(ExampleGarden(), 79) == {78, 80}
  {
    var g := ExampleGarden();
    MovesListed(g, 79);
    assert StepInDirection(g, 79, North) == Some(68) && StepInDirection(g, 79, East) == Some(80);
    assert StepInDirection(g, 79, South) == Some(90) && StepInDirection(g, 79, West) == Some(78);
    ExampleCells6();
    ExampleCells7();
    ExampleCells8();
  }

  lemma ExampleMoves80()
    ensures Moves(ExampleGarden(), 80) == {69, 79, 81, 91}
  {
    var g := ExampleGarden();
    MovesListed(g, 80);
    assert StepInDirection(g, 80, North) == Some(69) && StepInDirection(g, 80, East) == Some(81);
    assert StepInDirection(g, 80, South) == Some(91) && StepInDirection(g, 80, West) == Some(79);
    ExampleCells6();
    ExampleCells7();
    ExampleCells8();
  }

  lemma ExampleMoves81()
    ensures Moves(ExampleGarden(), 81) == {70, 80, 82}
  {
    var g := ExampleGarden();
    MovesListed(g, 81);
    assert StepInDirection(g, 81, North) == Some(70) && StepInDirection(g, 81, East) == Some(82);
    assert StepInDirection(g, 81, South) == Some(92) && StepInDirection(g, 81, West) == Some(80);
    ExampleCells6();
    ExampleCells7();
    ExampleCells8();
  }

  lemma ExampleMoves82()
    ensures Moves(ExampleGarden(), 82) == {81, 83, 93}
  {
    var g := ExampleGarden();
    MovesListed(g, 82);
    assert StepInDirection(g, 82, North) == Some(71) && StepInDirection(g, 82, East) == Some(83);
    assert StepInDirection(g, 82, South) == Some(93) && StepInDirection(g, 82, West) == Some(81);
    ExampleCells6();
    ExampleCells7();
    ExampleCells8();
    ExampleCells9();
  }

  lemma ExampleMoves83()
    ensures Moves(ExampleGarden(), 83) == {72, 82}
  {
    var g := ExampleGarden();
    MovesListed(g, 83);
    assert StepInDirection(g, 83, North) == Some(72) && StepInDirection(g, 83, East) == Some(84);
    assert StepInDirection(g, 83, South) == Some(94) && StepInDirection(g, 83, West) == Some(82);
    ExampleCells6();
    ExampleCells7();
    ExampleCells8();
    ExampleCells9();
  }

  lemma ExampleMoves91()
    ensures Moves(ExampleGarden(), 91) == {80, 102}
  {
    var g := ExampleGarden();
    MovesListed(g, 91);
    assert StepInDirection(g, 91, North) == Some(80) && StepInDirection(g, 91, East) == Some(92);
    assert StepInDirection(g, 91, South) == Some(102) && StepInDirection(g, 91, West) == Some(90);
    ExampleCells7();
    ExampleCells8();
    ExampleCells9();
  }

  lemma ExampleMoves93()
    ensures Moves(ExampleGarden(), 93) == {82}
  {
    var g := ExampleGarden();
    MovesListed(g, 93);
    assert StepInDirection(g, 93, North) == Some(82) && StepInDirection(g, 93, East) == Some(94);
    assert StepInDirection(g, 93, South) == Some(104) && StepInDirection(g, 93, West) == Some(92);
    ExampleCells7();
    ExampleCells8();
    ExampleCells9();
  }

  lemma ExampleStep1()
    ensures StepFrom(ExampleGarden(), {60}) == {49, 59}
  {
    assert {49, 59} == {49, 59};
    assert {} + {60} == {60};
    var g := ExampleGarden();
    assert StepFrom(g, {}) == {};
    ghost var a1 := {} + {60};
    StepFromAdd(g, {}, 60);
    ExampleMoves60();
  }

  lemma ExampleStep2()
    ensures StepFrom(ExampleGarden(), {49, 59}) == {38, 58, 60, 70}
  {
    assert {38, 60} + {58, 60, 70} == {38, 58, 60, 70};
    assert {} + {49} + {59} == {49, 59};
    var g := ExampleGarden();
    assert StepFrom(g, {}) == {};
    ghost var a1 := {} + {49};
    StepFromAdd(g, {}, 49);
    ghost var a2 := a1 + {59};
    StepFromAdd(g, a1, 59);
    ExampleMoves49();
    ExampleMoves59();
  }

  lemma ExampleStep3Part0()
    ensures InGrid(ExampleGarden(), {38, 58, 60})
    ensures StepFrom(ExampleGarden(), {38, 58, 60}) == {39, 47, 49, 59, 69}
  {
    assert {39, 49} + {47, 59, 69} + {49, 59} == {39, 47, 49, 59, 69};
    assert {} + {38} + {58} + {60} == {38, 58, 60};
    var g := ExampleGarden();
    assert StepFrom(g, {}) == {};
    ghost var a1 := {} + {38};
    StepFromAdd(g, {}, 38);
    ghost var a2 := a1 + {58};
    StepFromAdd(g, a1, 58);
    ghost var a3 := a2 + {60};
    StepFromAdd(g, a2, 60);
    ExampleMoves38();
    ExampleMoves58();
    ExampleMoves60();
  }

  lemma ExampleStep3Part1()
    ensures InGrid(ExampleGarden(), {70})
    ensures StepFrom(ExampleGarden(), {70}) == {59, 69, 81}
  {
    assert {59, 69, 81} == {59, 69, 81};
    assert {} + {70} == {70};
    var g := ExampleGarden();
    assert StepFrom(g, {}) == {};
    ghost var a1 := {} + {70};
    StepFromAdd(g, {}, 70);
    ExampleMoves70();
  }

  lemma ExampleStep3()
    ensures StepFrom(ExampleGarden(), {38, 58, 60, 70}) == {39, 47, 49, 59, 69, 81}
  {
    assert {38, 58, 60} + {70} == {38, 58, 60, 70};
    assert {39, 47, 49, 59, 69} + {59, 69, 81} == {39, 47, 49, 59, 69, 81};
    var g := ExampleGarden();
    ExampleStep3Part0();
    ExampleStep3Part1();
    StepFromUnion(g, {38, 58, 60}, {70}, {38, 58, 60, 70});
  }

  lemma ExampleStep4Part0()
    ensures InGrid(ExampleGarden(), {39, 47, 49})
    ensures StepFrom(ExampleGarden(), {39, 47, 49}) == {36, 38, 40, 46, 58, 60}
  {
    assert {38, 40} + {36, 46, 58} + {38, 60} == {36, 38, 40, 46, 58, 60};
    assert {} + {39} + {47} + {49} == {39, 47, 49};
    var g := ExampleGarden();
    assert StepFrom(g, {}) == {};
    ghost var a1 := {} + {39};
    StepFromAdd(g, {}, 39);
    ghost var a2 := a1 + {47};
    StepFromAdd(g, a1, 47);
    ghost var a3 := a2 + {49};
    StepFromAdd(g, a2, 49);
    ExampleMoves39();
    ExampleMoves47();
    ExampleMoves49();
  }

  lemma ExampleStep4Part1()
    ensures InGrid(ExampleGarden(), {59, 69, 81})
    ensures StepFrom(ExampleGarden(), {59, 69, 81}) == {58, 60, 70, 80, 82}
  {
    assert {58, 60, 70} + {58, 70, 80} + {70, 80, 82} == {58, 60, 70, 80, 82};
    assert {} + {59} + {69} + {81} == {59, 69, 81};
    var g := ExampleGarden();
    assert StepFrom(g, {}) == {};
    ghost var a1 := {} + {59};
    StepFromAdd(g, {}, 59);
    ghost var a2 := a1 + {69};
    StepFromAdd(g, a1, 69);
    ghost var a3 := a2 + {81};
    StepFromAdd(g, a2, 81);
    ExampleMoves59();
    ExampleMoves69();
    ExampleMoves81();
  }

  lemma ExampleStep4()
    ensures StepFrom(ExampleGarden(), {39, 47, 49, 59, 69, 81}) == {36, 38, 40, 46, 58, 60, 70, 80, 82}
  {
    assert {39, 47, 49} + {59, 69, 81} == {39, 47, 49, 59, 69, 81};
    assert {36, 38, 40, 46, 58, 60} + {58, 60, 70, 80, 82} == {36, 38, 40, 46, 58, 60, 70, 80, 82};
    var g := ExampleGarden();
    ExampleStep4Part0();
    ExampleStep4Part1();
    StepFromUnion(g, {39, 47, 49}, {59, 69, 81}, {39, 47, 49, 59, 69, 81});
  }

  lemma ExampleStep5Part0()
    ensures InGrid(ExampleGarden(), {36, 38, 40})
    ensures StepFrom(ExampleGarden(), {36, 38, 40}) == {29, 39, 47, 49, 51}
  {
    assert {47} + {39, 49} + {29, 39, 51} == {29, 39, 47, 49, 51};
    assert {} + {36} + {38} + {40} == {36, 38, 40};
    var g := ExampleGarden();
    assert StepFrom(g, {}) == {};
    ghost var a1 := {} + {36};
    StepFromAdd(g, {}, 36);
    ghost var a2 := a1 + {38};
    StepFromAdd(g, a1, 38);
    ghost var a3 := a2 + {40};
    StepFromAdd(g, a2, 40);
    ExampleMoves36();
    ExampleMoves38();
    ExampleMoves40();
  }

  lemma ExampleStep5Part1()
    ensures InGrid(ExampleGarden(), {46, 58, 60})
    ensures StepFrom(ExampleGarden(), {46, 58, 60}) == {45, 47, 49, 59, 69}
  {
    assert {45, 47} + {47, 59, 69} + {49, 59} == {45, 47, 49, 59, 69};
    assert {} + {46} + {58} + {60} == {46, 58, 60};
    var g := ExampleGarden();
    assert StepFrom(g, {}) == {};
    ghost var a1 := {} + {46};
    StepFromAdd(g, {}, 46);
    ghost var a2 := a1 + {58};
    StepFromAdd(g, a1, 58);
    ghost var a3 := a2 + {60};
    StepFromAdd(g, a2, 60);
    ExampleMoves46();
    ExampleMoves58();
    ExampleMoves60();
  }

  lemma ExampleStep5Part2()
    ensures InGrid(ExampleGarden(), {70, 80, 82})
    ensures StepFrom(ExampleGarden(), {70, 80, 82}) == {59, 69, 79, 81, 83, 91, 93}
  {
    assert {59, 69, 81} + {69, 79, 81, 91} + {81, 83, 93} == {59, 69, 79, 81, 83, 91, 93};
    assert {} + {70} + {80} + {82} == {70, 80, 82};
    var g := ExampleGarden();
    assert StepFrom(g, {}) == {};
    ghost var a1 := {} + {70};
    StepFromAdd(g, {}, 70);
    ghost var a2 := a1 + {80};
    StepFromAdd(g, a1, 80);
    ghost var a3 := a2 + {82};
    StepFromAdd(g, a2, 82);
    ExampleMoves70();
    ExampleMoves80();
    ExampleMoves82();
  }

  lemma ExampleStep5()
    ensures StepFrom(ExampleGarden(), {36, 38, 40, 46, 58, 60, 70, 80, 82}) == {29, 39, 45, 47, 49, 51, 59, 69, 79, 81, 83, 91, 93}
  {
    assert {36, 38, 40} + {46, 58, 60} == {36, 38, 40, 46, 58, 60};
    assert {29, 39, 47, 49, 51} + {45, 47, 49, 59, 69} == {29, 39, 45, 47, 49, 51, 59, 69};
    assert {36, 38, 40, 46, 58, 60} + {70, 80, 82} == {36, 38, 40, 46, 58, 60, 70, 80, 82};
    assert {29, 39, 45, 47, 49, 51, 59, 69} + {59, 69, 79, 81, 83, 91, 93} == {29, 39, 45, 47, 49, 51, 59, 69, 79, 81, 83, 91, 93};
    var g := ExampleGarden();
    ExampleStep5Part0();
    ExampleStep5Part1();
    ExampleStep5Part2();
    StepFromUnion(g, {36, 38, 40}, {46, 58, 60}, {36, 38, 40, 46, 58, 60});
    StepFromUnion(g, {36, 38, 40, 46, 58, 60}, {70, 80, 82}, {36, 38, 40, 46, 58, 60, 70, 80, 82});
  }

  lemma ExampleStep6Part0()
    ensures InGrid(ExampleGarden(), {29, 39, 45})
    ensures StepFrom(ExampleGarden(), {29, 39, 45}) == {30, 34, 38, 40, 44, 46}
  {
    assert {30, 40} + {38, 40} + {34, 44, 46} == {30, 34, 38, 40, 44, 46};
    assert {} + {29} + {39} + {45} == {29, 39, 45};
    var g := ExampleGarden();
    assert StepFrom(g, {}) == {};
    ghost var a1 := {} + {29};
    StepFromAdd(g, {}, 29);
    ghost var a2 := a1 + {39};
    StepFromAdd(g, a1, 39);
    ghost var a3 := a2 + {45};
    StepFromAdd(g, a2, 45);
    ExampleMoves29();
    ExampleMoves39();
    ExampleMoves45();
  }

  lemma ExampleStep6Part1()
    ensures InGrid(ExampleGarden(), {47, 49, 51})
    ensures StepFrom(ExampleGarden(), {47, 49, 51}) == {36, 38, 40, 46, 52, 58, 60}
  {
    assert {36, 46, 58} + {38, 60} + {40, 52} == {36, 38, 40, 46, 52, 58, 60};
    assert {} + {47} + {49} + {51} == {47, 49, 51};
    var g := ExampleGarden();
    assert StepFrom(g, {}) == {};
    ghost var a1 := {} + {47};
    StepFromAdd(g, {}, 47);
    ghost var a2 := a1 + {49};
    StepFromAdd(g, a1, 49);
    ghost var a3 := a2 + {51};
    StepFromAdd(g, a2, 51);
    ExampleMoves47();
    ExampleMoves49();
    ExampleMoves51();
  }

  lemma ExampleStep6Part2()
    ensures InGrid(ExampleGarden(), {59, 69, 79})
    ensures StepFrom(ExampleGarden(), {59, 69, 79}) == {58, 60, 70, 78, 80}
  {
    assert {58, 60, 70} + {58, 70, 80} + {78, 80} == {58, 60, 70, 78, 80};
    assert {} + {59} + {69} + {79} == {59, 69, 79};
    var g := ExampleGarden();
    assert StepFrom(g, {}) == {};
    ghost var a1 := {} + {59};
    StepFromAdd(g, {}, 59);
    ghost var a2 := a1 + {69};
    StepFromAdd(g, a1, 69);
    ghost var a3 := a2 + {79};
    StepFromAdd(g, a2, 79);
    ExampleMoves59();
    ExampleMoves69();
    ExampleMoves79();
  }

  lemma ExampleStep6Part3()
    ensures InGrid(ExampleGarden(), {81, 83, 91})
    ensures StepFrom(ExampleGarden(), {81, 83, 91}) == {70, 72, 80, 82, 102}
  {
    assert {70, 80, 82} + {72, 82} + {80, 102} == {70, 72, 80, 82, 102};
    assert {} + {81} + {83} + {91} == {81, 83, 91};
    var g := ExampleGarden();
    assert StepFrom(g, {}) == {};
    ghost var a1 := {} + {81};
    StepFromAdd(g, {}, 81);
    ghost var a2 := a1 + {83};
    StepFromAdd(g, a1, 83);
    ghost var a3 := a2 + {91};
    StepFromAdd(g, a2, 91);
    ExampleMoves81();
    ExampleMoves83();
    ExampleMoves91();
  }

  lemma ExampleStep6Part4()
    ensures InGrid(ExampleGarden(), {93})
    ensures StepFrom(ExampleGarden(), {93}) == {82}
  {
    assert {82} == {82};
    assert {} + {93} == {93};
    var g := ExampleGarden();
    assert StepFrom(g, {}) == {};
    ghost var a1 := {} + {93};
    StepFromAdd(g, {}, 93);
    ExampleMoves93();
  }

  lemma ExampleStep6()
    ensures StepFrom(ExampleGarden(), {29, 39, 45, 47, 49, 51, 59, 69, 79, 81, 83, 91, 93}) == {30, 34, 36, 38, 40, 44, 46, 52, 58, 60, 70, 72, 78, 80, 82, 102}
  {
    assert {29, 39, 45} + {47, 49, 51} == {29, 39, 45, 47, 49, 51};
    assert {30, 34, 38, 40, 44, 46} + {36, 38, 40, 46, 52, 58, 60} == {30, 34, 36, 38, 40, 44, 46, 52, 58, 60};
    assert {29, 39, 45, 47, 49, 51} + {59, 69, 79} == {29, 39, 45, 47, 49, 51, 59, 69, 79};
    assert {30, 34, 36, 38, 40, 44, 46, 52, 58, 60} + {58, 60, 70, 78, 80} == {30, 34, 36, 38, 40, 44, 46, 52, 58, 60, 70, 78, 80};
    assert {29, 39, 45, 47, 49, 51, 59, 69, 79} + {81, 83, 91} == {29, 39, 45, 47, 49, 51, 59, 69, 79, 81, 83, 91};
    assert {30, 34, 36, 38, 40, 44, 46, 52, 58, 60, 70, 78, 80} + {70, 72, 80, 82, 102} == {30, 34, 36, 38, 40, 44, 46, 52, 58, 60, 70, 72, 78, 80, 82, 102};
    assert {29, 39, 45, 47, 49, 51, 59, 69, 79, 81, 83, 91} + {93} == {29, 39, 45, 47, 49, 51, 59, 69, 79, 81, 83, 91, 93};
    assert {30, 34, 36, 38, 40, 44, 46, 52, 58, 60, 70, 72, 78, 80, 82, 102} + {82} == {30, 34, 36, 38, 40, 44, 46, 52, 58, 60, 70, 72, 78, 80, 82, 102};
    var g := ExampleGarden();
    ExampleStep6Part0();
    ExampleStep6Part1();
    ExampleStep6Part2();
    ExampleStep6Part3();
    ExampleStep6Part4();
    StepFromUnion(g, {29, 39, 45}, {47, 49, 51}, {29, 39, 45, 47, 49, 51});
    StepFromUnion(g, {29, 39, 45, 47, 49, 51}, {59, 69, 79}, {29, 39, 45, 47, 49, 51, 59, 69, 79});
    StepFromUnion(g, {29, 39, 45, 47, 49, 51, 59, 69, 79}, {81, 83, 91}, {29, 39, 45, 47, 49, 51, 59, 69, 79, 81, 83, 91});
    StepFromUnion(g, {29, 39, 45, 47, 49, 51, 59, 69, 79, 81, 83, 91}, {93}, {29, 39, 45, 47, 49, 51, 59, 69, 79, 81, 83, 91, 93});
  }

  /** The count of the example's plots after six steps, a quarter at a time. */
  lemma SixteenPlots()
    ensures |{30, 34, 36, 38, 40, 44, 46, 52, 58, 60, 70, 72, 78, 80, 82, 102}| == 16
  {
    var low, high := {30, 34, 36, 38, 40, 44, 46, 52}, {58, 60, 70, 72, 78, 80, 82, 102};
    assert low + high == {30, 34, 36, 38, 40, 44, 46, 52, 58, 60, 70, 72, 78, 80, 82, 102};
    LowPlots();
    HighPlots();
    DisjointCard(low, high);
  }

  lemma LowPlots()
    ensures |{30, 34, 36, 38, 40, 44, 46, 52}| == 8
  {
    var low, high := {30, 34, 36, 38}, {40, 44, 46, 52};
    assert low + high == {30, 34, 36, 38, 40, 44, 46, 52};
    DisjointCard(low, high);
  }

  lemma HighPlots()
    ensures |{58, 60, 70, 72, 78, 80, 82, 102}| == 8
  {
    var low, high := {58, 60, 70, 72}, {78, 80, 82, 102};
    assert low + high == {58, 60, 70, 72, 78, 80, 82, 102};
    DisjointCard(low, high);
  }

  lemma DisjointCard(a: set<int>, b: set<int>)
    requires a !! b
    ensures |a + b| == |a| + |b|
  {
    assert forall x :: x !in a * b;
    assert a * b == {};
  }

  /** `test_total_reachable_in_steps`: six steps on the example garden reach 16 plots. */
  lemma ExampleSixSteps()
    ensures Reachable(ExampleGarden(), 6) == {30, 34, 36, 38, 40, 44, 46, 52, 58, 60, 70, 72, 78, 80, 82, 102}
    ensures |Reachable(ExampleGarden(), 6)| == 16
  {
    var g := ExampleGarden();
    assert Reachable(g, 0) == {60};
    ExampleStep1();
    ReachableStep(g, 0, {60}, {49, 59});
    ExampleStep2();
    ReachableStep(g, 1, {49, 59}, {38, 58, 60, 70});
    ExampleStep3();
    ReachableStep(g, 2, {38, 58, 60, 70}, {39, 47, 49, 59, 69, 81});
    ExampleStep4();
    ReachableStep(g, 3, {39, 47, 49, 59, 69, 81}, {36, 38, 40, 46, 58, 60, 70, 80, 82});
    ExampleStep5();
    ReachableStep(g, 4, {36, 38, 40, 46, 58, 60, 70, 80, 82}, {29, 39, 45, 47, 49, 51, 59, 69, 79, 81, 83, 91, 93});
    ExampleStep6();
    ReachableStep(g, 5, {29, 39, 45, 47, 49, 51, 59, 69, 79, 81, 83, 91, 93}, {30, 34, 36, 38, 40, 44, 46, 52, 58, 60, 70, 72, 78, 80, 82, 102});
    SixteenPlots();
  }
}
