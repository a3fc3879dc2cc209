/**
 * An example of choosing coins with change: 26 coins are to be paid, and one 5, four 10s and one 50 are held. Instead of
 * the 50, with six coins of change, three 10s are spent, with four.
 */
module ZerocoinExample {
  import opened Denominations
  import opened Spending
  import opened ZerocoinChange

  const HELD: Counts := [0, 1, 4, 1, 0, 0, 0, 0]
  const TARGET: nat := 26 * COIN

  /** Largest first, below 26: two 10s and the 5. */
  lemma BelowTarget()
    ensures Strict(TARGET, HELD, 2) == [0, 1, 2, 0, 0, 0, 0, 0]
  {
    var r, c := TARGET - 1, Capped(HELD, 2);
    assert c == [0, 1, 4, 0, 0, 0, 0, 0];
    assert Rest(r, c, 3) == r;
    assert TakenAt(r, c, 2) == 2 && Rest(r, c, 2) == 6 * COIN - 1;
    assert TakenAt(r, c, 1) == 1 && Rest(r, c, 1) == COIN - 1;
  }

  /** The 5 being used up, a 10 takes it over the target. */
  lemma FilledWithTen()
    ensures Filled(TARGET, HELD, 2) == [0, 1, 3, 0, 0, 0, 0, 0]
  {
    BelowTarget();
    var below: Counts := [0, 1, 2, 0, 0, 0, 0, 0];
    WorthIs(below);
    hide Strict, Worth;
    assert FirstOver(COIN, below, HELD, 2) == 2;
    assert FirstOver(COIN, below, HELD, 1) == 2;
    assert FillUp(TARGET, HELD, below) == 2;
  }

  /** Change of up to 30 coins in 10s, a 5 and ones. */
  lemma SmallChange(tens: nat, fives: nat, ones: nat)
    requires tens <= 2 && fives <= 1 && ones <= 4
    ensures Change((10 * tens + 5 * fives + ones) * COIN) == [ones, fives, tens, 0, 0, 0, 0, 0]
  {
    hide Greedy, Rest, Taken;
    var r: nat := (10 * tens + 5 * fives + ones) * COIN;
    NoLargeChange(r, 3);
    ChangeStep(r, 2);
    TakenIs(r, r, Value(2), tens);
    ChangeStep(r, 1);
    TakenIs(r - 10 * tens * COIN, r, Value(1), fives);
    ChangeStep(r, 0);
    TakenIs(r - 10 * tens * COIN - 5 * fives * COIN, r, Value(0), ones);
  }

  lemma {:induction false} NoLargeChange(r: nat, i: nat)
    requires r < 50 * COIN && 3 <= i <= DENOMS
    ensures Rest(r, Plenty(r), i) == r && forall j :: i <= j < DENOMS ==> Change(r)[j] == 0
    decreases DENOMS - i
  {
    hide Change;
    if i < DENOMS {
      NoLargeChange(r, i + 1);
      ChangeStep(r, i);
      assert Value(i) >= 50 * COIN;
    }
  }

  /** Of the 9 coins of change one is a 5, like one of those spent: both are left out. */
  lemma FiveIsLeftOut()
    ensures AltAmount(TARGET, HELD, 2) == 30 * COIN
  {
    hide *;
    FilledWithTen();
    NineLeft();
    OneFiveLess();
    AltAmountIs(TARGET, HELD, 2);
  }

  lemma NineLeft()
    ensures Change(Total([0, 1, 3, 0, 0, 0, 0, 0]) - TARGET) == [4, 1, 0, 0, 0, 0, 0, 0]
  {
    hide Change, Worth;
    WorthIs([0, 1, 3, 0, 0, 0, 0, 0]);
    SmallChange(0, 1, 4);
  }

  lemma OneFiveLess()
    ensures Total(Trimmed([0, 1, 3, 0, 0, 0, 0, 0], [4, 1, 0, 0, 0, 0, 0, 0])) == 30 * COIN
  {
    hide Worth;
    assert Trimmed([0, 1, 3, 0, 0, 0, 0, 0], [4, 1, 0, 0, 0, 0, 0, 0]) == [0, 0, 3, 0, 0, 0, 0, 0];
    WorthIs([0, 0, 3, 0, 0, 0, 0, 0]);
  }

  lemma {:induction false} NoLargeCoins(r: nat, i: nat)
    requires r < 50 * COIN && 3 <= i <= DENOMS
    ensures Rest(r, HELD, i) == r && forall j :: i <= j < DENOMS ==> TakenAt(r, HELD, j) == 0
    decreases DENOMS - i
  {
    if i < DENOMS {
      NoLargeCoins(r, i + 1);
      hide Rest, TakenAt, HELD;
      RestStep(r, HELD, i);
      assert Value(i) >= 50 * COIN;
    }
  }

  lemma ThreeTens()
    ensures Greedy(30 * COIN, HELD) == [0, 0, 3, 0, 0, 0, 0, 0]
  {
    var r := 30 * COIN;
    NoLargeCoins(r, 3);
    TenIs();
    hide Rest, TakenAt, Taken, Value, HELD;
    RestStep(r, HELD, 2);
    TakenIs(r, 4, Value(2), 3);
    RestStep(r, HELD, 1);
    TakenIs(0, 1, Value(1), 0);
    RestStep(r, HELD, 0);
    TakenIs(0, 0, Value(0), 0);
  }

  lemma TenIs()
    ensures Value(2) == 10 * COIN && HELD[0] == 0 && HELD[1] == 1 && HELD[2] == 4
  {
  }

  lemma FourLeft()
    ensures Total([0, 0, 3, 0, 0, 0, 0, 0]) == 30 * COIN && Count([0, 0, 3, 0, 0, 0, 0, 0]) == 3
    ensures ChangeCount(30 * COIN, TARGET) == 4
  {
    hide Change, Worth, Size;
    SmallChange(0, 0, 4);
    WorthIs([0, 0, 3, 0, 0, 0, 0, 0]);
    WorthIs([4, 0, 0, 0, 0, 0, 0, 0]);
  }

  lemma SixLeft()
    ensures Value(3) == 50 * COIN && Count(Change(Value(3) - TARGET)) == 6
  {
    hide Change, Worth, Size;
    SmallChange(2, 0, 4);
    WorthIs([4, 0, 2, 0, 0, 0, 0, 0]);
  }

  lemma FiftyIsOver()
    ensures FirstOver(TARGET, NONE, HELD, 0) == 3 && HighestBelow(HELD, 3) == 2
    ensures NONE[3 := 1] == [0, 0, 0, 1, 0, 0, 0, 0]
  {
    assert FirstOver(TARGET, NONE, HELD, 2) == 3;
  }

  /** Minimizing takes three 10s and four coins of change, not minimizing the 50 and six. */
  lemma MinimizingPays()
    ensures Calculated(7, true, TARGET, HELD) == (4, [0, 0, 3, 0, 0, 0, 0, 0])
    ensures Calculated(7, false, TARGET, HELD) == (6, [0, 0, 0, 1, 0, 0, 0, 0])
  {
    FiveIsLeftOut();
    ThreeTens();
    FourLeft();
    SixLeft();
    FiftyIsOver();
    hide *;
    CalculatedByOne(7, true, TARGET, HELD, 3);
    CalculatedByOne(7, false, TARGET, HELD, 3);
    MinimizedIs(7, 6, 2, TARGET, HELD, NONE[3 := 1]);
  }
}
