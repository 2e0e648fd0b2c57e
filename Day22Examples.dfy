/** The support graph of the Day 22 tests: the seven example bricks settled, and what falls
    when each is taken away. */
module Day22Examples {
  import opened Day22

  /** Bricks 1 and 2 rest on brick 0, bricks 3 and 4 on both 1 and 2, brick 5 on both 3 and
      4, and brick 6 on brick 5. */
  function ExampleGraph(): SupportGraph
  {
    SupportGraph([{}, {0}, {0}, {1, 2}, {1, 2}, {3, 4}, {5}],
                 [{1, 2}, {3, 4}, {3, 4}, {5}, {5}, {6}, {}])
  }

  lemma ExampleWellFormed()
    ensures WellFormed(ExampleGraph())
  {
    var g := ExampleGraph();
    forall j, k | 0 <= j < 7 && k in g.supporters[j] ensures k < j {
      assert j in {1, 2, 3, 4, 5, 6};
    }
    forall k, j | 0 <= k < 7 && j in g.supporting[k] ensures k < j < 7 {
      assert k in {0, 1, 2, 3, 4, 5};
    }
    forall k, j | 0 <= k < 7 && 0 <= j < 7 ensures j in g.supporting[k] <==> k in g.supporters[j] {
      assert k in {0, 1, 2, 3, 4, 5, 6} && j in {0, 1, 2, 3, 4, 5, 6};
    }
  }

  /** Taking away the bottom brick brings down all six others. */
  lemma ExampleRemoveBottom()
    ensures Fallen(ExampleGraph(), 0) == {0, 1, 2, 3, 4, 5, 6}
  {
    var g := ExampleGraph();
    assert FallenBelow(g, 0, 1) == {0};
    assert FallenBelow(g, 0, 2) == {0, 1};
    assert FallenBelow(g, 0, 3) == {0, 1, 2};
    assert FallenBelow(g, 0, 4) == {0, 1, 2, 3};
    assert FallenBelow(g, 0, 5) == {0, 1, 2, 3, 4};
    assert FallenBelow(g, 0, 6) == {0, 1, 2, 3, 4, 5};
  }

  lemma AllSeven(s: set<nat>)
    requires s == {0, 1, 2, 3, 4, 5, 6}
    ensures |s| == 7
  {
  }

  /** Bricks 1 and 3 each share the bricks they support with a twin. */
  lemma ExampleRemoveTwins()
    ensures Fallen(ExampleGraph(), 1) == {1} && Fallen(ExampleGraph(), 3) == {3}
  {
    var g := ExampleGraph();
    assert FallenBelow(g, 1, 1) == {};
    assert FallenBelow(g, 1, 2) == {1};
    assert FallenBelow(g, 1, 3) == {1};
    assert FallenBelow(g, 1, 4) == {1};
    assert FallenBelow(g, 1, 5) == {1};
    assert FallenBelow(g, 1, 6) == {1};
    assert FallenBelow(g, 3, 3) == {};
    assert FallenBelow(g, 3, 4) == {3};
    assert FallenBelow(g, 3, 5) == {3};
    assert FallenBelow(g, 3, 6) == {3};
  }

  /** Brick 2 is the twin of brick 1, brick 4 of brick 3, and nothing rests on brick 6. */
  lemma ExampleRemoveOthers()
    ensures Fallen(ExampleGraph(), 2) == {2} && Fallen(ExampleGraph(), 4) == {4}
    ensures Fallen(ExampleGraph(), 6) == {6}
  {
    var g := ExampleGraph();
    assert FallenBelow(g, 2, 2) == {};
    assert FallenBelow(g, 2, 3) == {2};
    assert FallenBelow(g, 2, 4) == {2};
    assert FallenBelow(g, 2, 5) == {2};
    assert FallenBelow(g, 2, 6) == {2};
    assert FallenBelow(g, 4, 4) == {};
    assert FallenBelow(g, 4, 5) == {4};
    assert FallenBelow(g, 4, 6) == {4};
    assert FallenBelow(g, 6, 6) == {};
  }

  /** Only brick 6 rests on brick 5. */
  lemma ExampleRemoveTop()
    ensures Fallen(ExampleGraph(), 5) == {5, 6}
  {
    var g := ExampleGraph();
    assert FallenBelow(g, 5, 5) == {};
    assert FallenBelow(g, 5, 6) == {5};
  }

  /** `removable_bricks`: every brick but 0 and 5 can go. */
  lemma ExampleRemovable()
    ensures WellFormed(ExampleGraph()) && RemovableBricks(ExampleGraph()) == 5
  {
    var g := ExampleGraph();
    ExampleWellFormed();
    assert !Removable(g, 0) by {
      assert 1 in g.supporting[0];
    }
    assert Removable(g, 1) && Removable(g, 2) && Removable(g, 3) && Removable(g, 4) by {
      assert |g.supporters[3]| == 2 && |g.supporters[4]| == 2 && |g.supporters[5]| == 2;
    }
    assert !Removable(g, 5) by {
      assert 6 in g.supporting[5];
    }
    assert Removable(g, 6);
    assert RemovableAmong(g, 1) == 0;
    assert RemovableAmong(g, 3) == 2;
    assert RemovableAmong(g, 5) == 4;
    assert RemovableAmong(g, 6) == 4;
  }

  /** `part_two` on the example graph: six bricks fall with brick 0 and one with brick 5,
      and none with any other. */
  lemma ExampleOthersFalling()
    ensures OthersFalling(ExampleGraph(), 7) == 7
  {
    var g := ExampleGraph();
    ExampleRemoveBottom();
    AllSeven(Fallen(g, 0));
    ExampleRemoveTwins();
    ExampleRemoveOthers();
    ExampleRemoveTop();
    assert |Fallen(g, 5)| == 2 by {
      assert Fallen(g, 5) == {5} + {6};
    }
    assert OthersFalling(g, 1) == 6;
    assert OthersFalling(g, 3) == 6;
    assert OthersFalling(g, 5) == 6;
    assert OthersFalling(g, 6) == 7;
  }
}
