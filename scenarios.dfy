/**
 * Small worked searches: an exact hit found on the second batch, a refused
 * order, and a zero-window search that ends without a match although a
 * selection making up the order exists.
 */
module Scenarios {
  import opened Inventory
  import opened Combination
  import opened Frontier
  import opened Expansion
  import opened Soundness
  import opened Search

  /** Three packages of 2 and two packages of 5. */
  const Stock := [Batch(0, 2, 3), Batch(1, 5, 2)]

  const O2 := ObInfo(2, [Pick(0, 1)])
  const O4 := ObInfo(4, [Pick(0, 2)])
  const O6 := ObInfo(6, [Pick(0, 3)])

  /** The frontier after the first batch: every count of packages of 2. */
  const F1 := [O6, O4, O2, Empty]

  /** For order 9 the first batch tries one to three packages, all below 9. */
  lemma FirstBatch()
    ensures BatchStep(Stock, 9, 10, 0, [Empty], 0) == Done(F1, 3)
  {
    var c0 := [O2, O4, O6];
    assert CandidateRange(Stock[0], 0, 9, 10) == Range(1, 3);
    assert Candidates(Stock, 0, 1, 3) == c0;
    assert Insert([Empty], O2) == [O2, Empty];
    assert Insert([O2, Empty], O4) == [O4, O2, Empty];
    assert Insert([O4, O2, Empty], O6) == F1;
    assert Extend(Empty, O2) == O2 && Extend(Empty, O4) == O4 && Extend(Empty, O6) == O6;
    assert c0[1..] == [O4, O6] && c0[1..][1..] == [O6] && c0[1..][1..][1..] == [];
    assert ExtendAll(Empty, c0[1..][1..], [O4, O2, Empty], 9, 2) == Done(F1, 3);
    assert ExtendAll(Empty, c0[1..], [O2, Empty], 9, 1) == Done(F1, 3);
    assert ExtendAll(Empty, c0, [Empty], 9, 0) == Done(F1, 3);
    assert [Empty][1..] == [];
    assert Scan([], F1, c0, 9, 0, 10, 3) == Done(F1, 3);
    assert Scan([Empty], [Empty], c0, 9, Min(0, 9), 10, 0) == Done(F1, 3);
  }

  /** On the second batch, 6 + 5 and 6 + 10 overshoot and go into the
      frontier; then 4 + 5 completes the order. */
  lemma SecondBatch()
    ensures BatchStep(Stock, 9, 10, 1, F1, 3) == Hit(ObInfo(9, [Pick(0, 2), Pick(1, 1)]), 5)
  {
    var c1 := [ObInfo(5, [Pick(1, 1)]), ObInfo(10, [Pick(1, 2)])];
    assert CandidateRange(Stock[1], 6, 9, 10) == Range(1, 2);
    assert Candidates(Stock, 1, 1, 2) == c1;
    var o11, o16 := ObInfo(11, [Pick(0, 3), Pick(1, 1)]), ObInfo(16, [Pick(0, 3), Pick(1, 2)]);
    assert Extend(O6, c1[0]) == o11 && Extend(O6, c1[1]) == o16;
    assert Insert(F1, o11) == [o11] + F1;
    assert Insert([o11] + F1, o16) == [o16, o11] + F1;
    var f2 := [o16, o11] + F1;
    assert c1[1..] == [c1[1]] && c1[1..][1..] == [];
    assert ExtendAll(O6, c1[1..], [o11] + F1, 9, 4) == Done(f2, 5);
    assert ExtendAll(O6, c1, F1, 9, 3) == Done(f2, 5);
    assert ExtendAll(O4, c1, f2, 9, 5) == Hit(ObInfo(9, [Pick(0, 2), Pick(1, 1)]), 5);
    assert F1[1..][0] == O4 && F1[0] == O6;
    assert Scan(F1[1..], f2, c1, 9, 6, 10, 5) == Hit(ObInfo(9, [Pick(0, 2), Pick(1, 1)]), 5);
    assert Scan(F1, F1, c1, 9, Min(6, 9), 10, 3) == Hit(ObInfo(9, [Pick(0, 2), Pick(1, 1)]), 5);
  }

  /** The search stops on the second batch with two packages of 2 and one of
      5, after five expansion attempts and no erasure. */
  lemma ExactHit()
    ensures Run(Stock, 9, 10) == Found([Pick(0, 2), Pick(1, 1)], 5, 0)
  {
    assert Stock[..1][..0] == [] && Stock[..2][..1] == Stock[..1] && Stock[..2] == Stock;
    assert InvTotal(Stock) == 16;
    FirstBatch();
    LoopDone(Stock, 9, 10, 0, [Empty], 0, 0, F1, 3);
    KeepAll(F1, 6, 10);
    SecondBatch();
    LoopHit(Stock, 9, 10, 1, F1, 3, 0, ObInfo(9, [Pick(0, 2), Pick(1, 1)]), 5);
  }

  /** One package of 2 cannot supply 5: the order is refused. */
  lemma OrderAboveStock()
    ensures Run([Batch(0, 2, 1)], 5, 10) == InvalidOrder
  {
    assert [Batch(0, 2, 1)][..1][..0] == [];
    assert InvTotal([Batch(0, 2, 1)]) == 2;
  }

  /** Two packages of 3 and two packages of 4. */
  const Narrow := [Batch(0, 3, 2), Batch(1, 4, 2)]

  /** Order 11, window 0, first batch: both packages of 3 at once (the
      raised range start), then the prune keeps only 6. */
  lemma NarrowFirstBatch()
    ensures BatchStep(Narrow, 11, 0, 0, [Empty], 0) == Done([ObInfo(6, [Pick(0, 2)]), Empty], 1)
  {
    var o6 := ObInfo(6, [Pick(0, 2)]);
    assert WareNum(Narrow[0]) == 6;
    assert CandidateRange(Narrow[0], 0, 11, 0) == Range(2, 2);
    assert Candidates(Narrow, 0, 2, 2) == [o6];
    assert Extend(Empty, o6) == o6;
    assert Insert([Empty], o6) == [o6, Empty];
    assert [o6][1..] == [] && [Empty][1..] == [];
    assert ExtendAll(Empty, [o6], [Empty], 11, 0) == Done([o6, Empty], 1);
    assert Scan([Empty], [Empty], [o6], 11, Min(0, 11), 0, 0) == Done([o6, Empty], 1);
  }

  /** Second batch: 6 + 4 and 6 + 8 miss 11, and the prune keeps only 14. */
  lemma NarrowSecondBatch()
    ensures BatchStep(Narrow, 11, 0, 1, [ObInfo(6, [Pick(0, 2)])], 1)
         == Done([ObInfo(14, [Pick(0, 2), Pick(1, 2)]), ObInfo(10, [Pick(0, 2), Pick(1, 1)]), ObInfo(6, [Pick(0, 2)])], 3)
  {
    var o6 := ObInfo(6, [Pick(0, 2)]);
    var c1 := [ObInfo(4, [Pick(1, 1)]), ObInfo(8, [Pick(1, 2)])];
    var o10, o14 := ObInfo(10, [Pick(0, 2), Pick(1, 1)]), ObInfo(14, [Pick(0, 2), Pick(1, 2)]);
    assert WareNum(Narrow[1]) == 8;
    assert CandidateRange(Narrow[1], 6, 11, 0) == Range(1, 2);
    assert Candidates(Narrow, 1, 1, 2) == c1;
    assert Extend(o6, c1[0]) == o10 && Extend(o6, c1[1]) == o14;
    assert Insert([o6], o10) == [o10, o6];
    assert Insert([o10, o6], o14) == [o14, o10, o6];
    assert c1[1..] == [c1[1]] && c1[1..][1..] == [] && [o6][1..] == [];
    assert ExtendAll(o6, c1[1..], [o10, o6], 11, 2) == Done([o14, o10, o6], 3);
    assert ExtendAll(o6, c1, [o6], 11, 1) == Done([o14, o10, o6], 3);
    assert Scan([o6], [o6], c1, 11, Min(6, 11), 0, 1) == Done([o14, o10, o6], 3);
  }

  /** One package of 3 and two of 4 make up 11. */
  lemma NarrowHasSelection()
    ensures ValidPicks(Narrow, |Narrow|, [Pick(0, 1), Pick(1, 2)])
    ensures Total(Narrow, [Pick(0, 1), Pick(1, 2)]) == 11
  {
    assert [Pick(0, 1), Pick(1, 2)][..1] == [Pick(0, 1)] && [Pick(0, 1)][..0] == [];
  }

  /** From the second batch on, with only 6 left, the search ends at 14. */
  lemma NarrowFromSecondBatch()
    ensures Loop(Narrow, 11, 0, 1, [ObInfo(6, [Pick(0, 2)])], 1, 1) == Exhausted(14, 3, 3)
  {
    var o6 := ObInfo(6, [Pick(0, 2)]);
    var o10, o14 := ObInfo(10, [Pick(0, 2), Pick(1, 1)]), ObInfo(14, [Pick(0, 2), Pick(1, 2)]);
    assert Loop(Narrow, 11, 0, 2, [o14], 3, 3) == Exhausted(14, 3, 3);
    NarrowSecondBatch();
    LoopDone(Narrow, 11, 0, 1, [o6], 1, 1, [o14, o10, o6], 3);
    ZeroWindowKeepsOnlyMax([o14, o10, o6]);
  }

  /**
   * The window trades completeness for a small frontier: with a zero window
   * the search for 11 keeps only 6 after the first batch and ends without a
   * match, although a selection making up 11 exists.
   */
  lemma ZeroWindowMissesOrder()
    ensures ValidPicks(Narrow, |Narrow|, [Pick(0, 1), Pick(1, 2)])
    ensures Total(Narrow, [Pick(0, 1), Pick(1, 2)]) == 11
    ensures Run(Narrow, 11, 0) == Exhausted(14, 3, 3)
  {
    NarrowHasSelection();
    assert Narrow[..1][..0] == [] && Narrow[..2][..1] == Narrow[..1] && Narrow[..2] == Narrow;
    assert InvTotal(Narrow) == 14;
    var o6 := ObInfo(6, [Pick(0, 2)]);
    NarrowFromSecondBatch();
    NarrowFirstBatch();
    LoopDone(Narrow, 11, 0, 0, [Empty], 0, 0, [o6, Empty], 1);
    ZeroWindowKeepsOnlyMax([o6, Empty]);
  }
}
