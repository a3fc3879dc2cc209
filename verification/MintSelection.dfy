/**
 * Selecting mints for a spend: an exact payment if there is one with few enough spends, else coins that
 * exceed the target and the change they call for.
 */
module MintSelection {
  import opened Denominations
  import opened Spending
  import opened ZerocoinChange

  type Int32 = x: int | -0x8000_0000 <= x < 0x8000_0000

  /** A number converted to an unsigned 64-bit size. */
  function AsSize(x: Int32): nat
  {
    x % 0x1_0000_0000_0000_0000
  }

  predicate ExactWithin(maxSpends: Int32, target: int, h: Counts)
  {
    Total(Greedy(target, h)) == target && Count(Greedy(target, h)) <= AsSize(maxSpends)
  }

  /** The number of coins of change and the coins to spend; no coins if no choice is found. An exact payment is made
      from the coins listed, one with change is calculated from the coins said to be held. */
  function ChosenOf(maxSpends: Int32, minimize: bool, target: int, listed: Counts, held: Counts): (int, Counts)
  {
    if ExactWithin(maxSpends, target, listed) then (0, Greedy(target, listed))
    else
      var r := Calculated(maxSpends, minimize, target, held);
      if r.0 == 0 then (0, NONE) else r
  }

  /** What is chosen when the coins held are those listed, as they are in the wallet. */
  function Chosen(maxSpends: Int32, minimize: bool, target: int, h: Counts): (int, Counts)
  {
    ChosenOf(maxSpends, minimize, target, h, h)
  }

  /**
   * Selects mints from the list; `nSelectedValue` is overwritten when mints are selected.
   * The coins chosen must be in the list, or mints would be taken twice; they are if those said to be held are.
   */
  method SelectMintsFromList(nValueTarget: int, selectedBefore: int, nMaxNumberOfSpends: Int32, fMinimizeChange: bool,
                             listMints: seq<Mint>, mapOfDenomsHeld: Counts)
    returns (vSelectedMints: seq<Mint>, nSelectedValue: int, nCoinsReturned: int, nNeededSpends: int)
    requires var listed := Histogram(listMints);
      Below(ChosenOf(nMaxNumberOfSpends, fMinimizeChange, nValueTarget, listed, mapOfDenomsHeld).1, listed)
    ensures var c := ChosenOf(nMaxNumberOfSpends, fMinimizeChange, nValueTarget, Histogram(listMints), mapOfDenomsHeld);
      vSelectedMints == Selection(listMints, c.1, 0) && nCoinsReturned == c.0
    ensures vSelectedMints != [] ==> nSelectedValue == MintsWorth(vSelectedMints)
    ensures multiset(vSelectedMints) <= multiset(listMints)
    ensures forall m :: m in vSelectedMints ==> !m.isUsed
    ensures ExactWithin(nMaxNumberOfSpends, nValueTarget, Histogram(listMints)) ==>
      MintsWorth(vSelectedMints) == nValueTarget && |vSelectedMints| <= AsSize(nMaxNumberOfSpends) && nCoinsReturned == 0
    ensures
      nValueTarget > 0 && vSelectedMints != []
      && !ExactWithin(nMaxNumberOfSpends, nValueTarget, Histogram(listMints)) ==>
      MintsWorth(vSelectedMints) > nValueTarget
      && nCoinsReturned == ChangeCount(MintsWorth(vSelectedMints), nValueTarget) > 0
    ensures nNeededSpends ==
      if Payable(Histogram(listMints), nValueTarget)
        && !ExactWithin(nMaxNumberOfSpends, nValueTarget, Histogram(listMints))
      then Count(Greedy(nValueTarget, Histogram(listMints))) else 0
  {
    hide *;
    nNeededSpends := 0;
    nSelectedValue := selectedBefore;
    ghost var listed := Histogram(listMints);
    ghost var c := ChosenOf(nMaxNumberOfSpends, fMinimizeChange, nValueTarget, listed, mapOfDenomsHeld);
    ChosenCases(nMaxNumberOfSpends, fMinimizeChange, nValueTarget, listed, mapOfDenomsHeld);
    if nValueTarget > 0 { ChosenOfIsCorrect(nMaxNumberOfSpends, fMinimizeChange, nValueTarget, listed, mapOfDenomsHeld); }
    SelectionFacts(listMints, c.1);
    var fCanMeetExactly, mapOfDenomsUsed := GetIdealSpends(nValueTarget, listMints);
    var left;
    if fCanMeetExactly {
      nCoinsReturned := 0;
      GreedyIsBelow(nValueTarget, listed);
      SelectionFacts(listMints, mapOfDenomsUsed);
      vSelectedMints, nSelectedValue, left := GetSpends(listMints, mapOfDenomsUsed);
      if |vSelectedMints| <= AsSize(nMaxNumberOfSpends) {
        return;
      } else {
        nNeededSpends := |vSelectedMints|;
      }
    }
    nCoinsReturned, mapOfDenomsUsed := CalculateChange(nMaxNumberOfSpends, fMinimizeChange, nValueTarget, mapOfDenomsHeld);
    if nCoinsReturned == 0 {
      NothingSelected(listMints);
      vSelectedMints := [];
    } else {
      vSelectedMints, nSelectedValue, left := GetSpends(listMints, mapOfDenomsUsed);
    }
  }

  /** Whatever is asked for, the coins chosen are in the list if those said to be held are. */
  lemma ChosenIsListed(maxSpends: Int32, minimize: bool, target: int, listed: Counts, held: Counts)
    requires Below(held, listed)
    ensures Below(ChosenOf(maxSpends, minimize, target, listed, held).1, listed)
  {
    hide *;
    ChosenCases(maxSpends, minimize, target, listed, held);
    GreedyIsBelow(target, listed);
    CalculatedIsHeld(maxSpends, minimize, target, held);
    BelowNone(listed);
    BelowBelow(Calculated(maxSpends, minimize, target, held).1, held, listed);
  }

  lemma BelowBelow(c: Counts, d: Counts, e: Counts)
    requires Below(c, d) && Below(d, e)
    ensures Below(c, e)
  {
  }

  /** Whatever the target, coins are calculated from those held. */
  lemma CalculatedIsHeld(maxSpends: int, minimize: bool, target: int, h: Counts)
    ensures Below(Calculated(maxSpends, minimize, target, h).1, h)
  {
    hide Greedy, Over, Change, AltAmount;
    BelowNone(h);
  }

  lemma GreedyIsBelow(target: int, h: Counts)
    ensures Below(Greedy(target, h), h)
  {
  }

  lemma NothingSelected(mints: seq<Mint>)
    ensures Selection(mints, NONE, 0) == []
  {
    hide *;
    BelowNone(Histogram(mints));
    SelectionFacts(mints, NONE);
    NoneIsNothing();
  }

  lemma NoneIsNothing()
    ensures Count(NONE) == 0 && Total(NONE) == 0
  {
    NothingBelow(NONE, DENOMS);
  }

  lemma BelowNone(h: Counts)
    ensures Below(NONE, h)
  {
  }

  lemma SelectionFacts(mints: seq<Mint>, used: Counts)
    requires Below(used, Histogram(mints))
    ensures |Selection(mints, used, 0)| == Count(used) && MintsWorth(Selection(mints, used, 0)) == Total(used)
    ensures forall m :: m in Selection(mints, used, 0) ==> !m.isUsed
    ensures multiset(Selection(mints, used, 0)) <= multiset(mints)
  {
    SelectionIsFromList(mints, used, 0);
    SelectionWorth(mints, used, 0);
  }

  lemma ChosenCases(maxSpends: Int32, minimize: bool, target: int, listed: Counts, held: Counts)
    ensures ExactWithin(maxSpends, target, listed) <==>
      Payable(listed, target) && Count(Greedy(target, listed)) <= AsSize(maxSpends)
    ensures ExactWithin(maxSpends, target, listed) ==>
      Total(Greedy(target, listed)) == target
      && ChosenOf(maxSpends, minimize, target, listed, held) == (0, Greedy(target, listed))
    ensures !ExactWithin(maxSpends, target, listed) ==>
      var r := Calculated(maxSpends, minimize, target, held);
      ChosenOf(maxSpends, minimize, target, listed, held) == if r.0 == 0 then (0, NONE) else r
    ensures Chosen(maxSpends, minimize, target, held) == ChosenOf(maxSpends, minimize, target, held, held)
  {
    hide Greedy, Calculated, Payable, Total, Count;
    GreedyIsComplete(target, listed);
  }

  /** Coins are paid exactly, or they exceed the target and the number of coins of change is right. */
  lemma ChosenOfIsCorrect(maxSpends: Int32, minimize: bool, target: int, listed: Counts, held: Counts)
    requires target > 0
    ensures var c := ChosenOf(maxSpends, minimize, target, listed, held);
      && (ExactWithin(maxSpends, target, listed) ==> Total(c.1) == target && c.0 == 0)
      && (!ExactWithin(maxSpends, target, listed) && c.0 != 0 ==>
            Total(c.1) > target && c.0 == ChangeCount(Total(c.1), target) > 0)
      && (!ExactWithin(maxSpends, target, listed) && c.0 == 0 ==> c.1 == NONE)
  {
    hide *;
    ChosenCases(maxSpends, minimize, target, listed, held);
    if target <= Total(held) {
      CalculatedIsSound(maxSpends, minimize, target, held);
      SoundIs(target, held, Calculated(maxSpends, minimize, target, held).0, Calculated(maxSpends, minimize, target, held).1);
    } else {
      NotCoveredIsNothing(maxSpends, minimize, target, held);
    }
  }

  /** Only coins held are chosen. They pay the target exactly, or exceed it and the number of coins of change is right. */
  lemma ChosenIsCorrect(maxSpends: Int32, minimize: bool, target: int, h: Counts)
    requires target > 0
    ensures var c := Chosen(maxSpends, minimize, target, h);
      && Below(c.1, h)
      && (ExactWithin(maxSpends, target, h) ==> Total(c.1) == target && c.0 == 0)
      && (!ExactWithin(maxSpends, target, h) && c.0 != 0 ==>
            Total(c.1) > target && c.0 == ChangeCount(Total(c.1), target) > 0)
      && (!ExactWithin(maxSpends, target, h) && c.0 == 0 ==> c.1 == NONE)
  {
    hide *;
    ChosenCases(maxSpends, minimize, target, h, h);
    ChosenOfIsCorrect(maxSpends, minimize, target, h, h);
    BelowItself(h);
    ChosenIsListed(maxSpends, minimize, target, h, h);
  }

  lemma BelowItself(h: Counts)
    ensures Below(h, h)
  {
  }

  lemma SoundIs(target: int, h: Counts, n: int, used: Counts)
    requires Sound(target, h, n, used)
    ensures Below(used, h) && Total(used) >= target && n == ChangeCount(Total(used), target) >= 0
    ensures n > 0 <==> Total(used) - target >= COIN
    ensures n > 0 ==> Total(used) > target
  {
    ChangeIsDue(Total(used), target);
  }

  lemma ChangeOfNegative(r: int)
    requires r < 0
    ensures Count(Change(r)) == 0
  {
    hide Value, Greedy, Worth, Size;
    assert Below(Greedy(r, NONE), NONE);
    MoreIsWorthMore(Greedy(r, NONE), NONE, DENOMS);
    NothingBelow(NONE, DENOMS);
  }

  /** Without enough coins there is no change either. */
  lemma NotCoveredIsNothing(maxSpends: int, minimize: bool, target: int, h: Counts)
    requires target > Total(h)
    ensures Calculated(maxSpends, minimize, target, h).0 == 0
  {
    hide *;
    CalculatedByMany2(maxSpends, minimize, target, h);
    var o := Over(target, h);
    OverIsBelow(target, h);
    MoreIsWorthMore(o, h, DENOMS);
    ChangeOfNegative(Total(o) - target);
    NothingToMinimize(maxSpends, HighestBelow(h, DENOMS), target, h, o);
  }

  lemma OverIsBelow(target: int, h: Counts)
    ensures Below(Over(target, h), h)
    ensures forall c: Counts :: Total(c) == Worth(c, DENOMS) && Count(c) == Size(c, DENOMS)
  {
  }

  lemma CalculatedByMany2(maxSpends: int, minimize: bool, target: int, h: Counts)
    requires target > Total(h)
    ensures var o := Over(target, h);
      var n := Count(Change(Total(o) - target));
      var alt := Minimized(maxSpends, n, HighestBelow(h, DENOMS), target, h, o);
      Calculated(maxSpends, minimize, target, h) == if !minimize && Count(o) < Count(alt.1) then (n, o) else alt
  {
    hide Value, Change, Minimized, Calculated, Over, Worth;
    var d := FirstOver(target, NONE, h, 0);
    if d < DENOMS {
      TotalOfOne(d);
      MoreIsWorthMore(One(d), h, DENOMS);
      assert false;
    }
    CalculatedByMany(maxSpends, minimize, target, h);
  }

  lemma NothingToMinimize(maxSpends: int, limit: Denom, target: int, h: Counts, used: Counts)
    ensures Minimized(maxSpends, 0, limit, target, h, used) == (0, used)
  {
    hide AltAmount, Greedy, Change;
  }

  // ----- when no mints are selected

  lemma MinimizedIsPositive(maxSpends: Int32, n: int, limit: Denom, target: int, h: Counts, used: Counts)
    requires n > 0 && target % COIN == 0 && Total(Filled(target, h, limit)) >= target
    requires !ExactWithin(maxSpends, target, h)
    ensures Minimized(maxSpends, n, limit, target, h, used).0 > 0
  {
    hide Filled, AltAmount, Greedy, ChangeCount, Worth, Size;
    var amount := AltAmount(target, h, limit);
    AltIsPayable(target, h, limit);
    ChangeIsDue(amount, target);
    WorthIsWhole(Greedy(amount, h), DENOMS);
    WholeGap(amount, target);
  }

  lemma WholeGap(a: nat, b: int)
    requires a % COIN == 0 && b % COIN == 0
    ensures a > b ==> a - b >= COIN
  {
    assert a == COIN * (a / COIN) && b == COIN * (b / COIN);
  }

  lemma PositiveWhenOver(amount: nat, target: int)
    requires target % COIN == 0 && amount % COIN == 0
    ensures amount > target ==> ChangeCount(amount, target) > 0
  {
    WholeGap(amount, target);
    if amount >= target { ChangeIsDue(amount, target); }
  }

  lemma TotalIsWhole(c: Counts)
    ensures Total(c) % COIN == 0
  {
    WorthIsWhole(c, DENOMS);
  }

  /** A coin that exceeds the target leads to change, unless an exact payment is within the limit. */
  lemma ByOneIsPositive(maxSpends: Int32, minimize: bool, target: int, h: Counts)
    requires target > 0 && target % COIN == 0 && !ExactWithin(maxSpends, target, h)
    requires FirstOver(target, NONE, h, 0) < DENOMS
    ensures Calculated(maxSpends, minimize, target, h).0 > 0
  {
    var d := FirstOver(target, NONE, h, 0);
    hide Value, Minimized, Calculated, FirstOver, ExactWithin, Worth, Filled, Change;
    TotalOfOne(d);
    TotalIsWhole(One(d));
    PositiveWhenOver(Total(One(d)), target);
    FilledExceedsBelow(target, h, d);
    CalculatedByOne(maxSpends, minimize, target, h, d);
    MinimizedIsPositive(maxSpends, ChangeCount(Value(d), target), HighestBelow(h, d), target, h, One(d));
  }

  lemma ByManyIsPositive(maxSpends: Int32, minimize: bool, target: int, h: Counts)
    requires target > 0 && target % COIN == 0 && !ExactWithin(maxSpends, target, h)
    requires FirstOver(target, NONE, h, 0) == DENOMS && Total(Over(target, h)) > target
    ensures Calculated(maxSpends, minimize, target, h).0 > 0
  {
    hide Value, Minimized, Calculated, FirstOver, ExactWithin, Worth, Filled, Change, Over;
    var o := Over(target, h);
    TotalIsWhole(o);
    PositiveWhenOver(Total(o), target);
    FilledExceeds(target, h);
    CalculatedByMany(maxSpends, minimize, target, h);
    MinimizedIsPositive(maxSpends, ChangeCount(Total(o), target), HighestBelow(h, DENOMS), target, h, o);
  }

  lemma ByManyIsZero(maxSpends: Int32, minimize: bool, target: int, h: Counts)
    requires FirstOver(target, NONE, h, 0) == DENOMS && Total(Over(target, h)) == target
    ensures Calculated(maxSpends, minimize, target, h).0 == 0
  {
    hide Value, Minimized, Calculated, FirstOver, Worth, Change, Over;
    CalculatedByMany(maxSpends, minimize, target, h);
    NoChange(target);
    NothingToMinimize(maxSpends, HighestBelow(h, DENOMS), target, h, Over(target, h));
  }

  /**
   * No mints are selected exactly when the coins held do not cover the target, or when there is no exact payment with
   * few enough spends and the coins to overpay with exceed the target by less than a coin.
   * For a target of whole coins the latter is when no single coin exceeds it and the largest coins hit it.
   */
  lemma SelectsNothingIff(maxSpends: Int32, minimize: bool, target: int, h: Counts)
    requires target > 0
    ensures Chosen(maxSpends, minimize, target, h).1 == NONE <==>
      || Total(h) < target
      || (!ExactWithin(maxSpends, target, h) && Total(Calculated(maxSpends, minimize, target, h).1) < target + COIN)
    ensures target % COIN == 0 ==>
      (Chosen(maxSpends, minimize, target, h).1 == NONE <==>
        || Total(h) < target
        || (!ExactWithin(maxSpends, target, h) && FirstOver(target, NONE, h, 0) == DENOMS && Total(Over(target, h)) == target))
  {
    hide *;
    ChosenCases(maxSpends, minimize, target, h, h);
    ChosenIsCorrect(maxSpends, minimize, target, h);
    NoneIsNothing();
    CoinIsPositive();
    if Total(h) < target {
      NotCoveredIsNothing(maxSpends, minimize, target, h);
      NotPayable(target, h);
    } else if !ExactWithin(maxSpends, target, h) {
      CalculatedIsSound(maxSpends, minimize, target, h);
      SoundIs(target, h, Calculated(maxSpends, minimize, target, h).0, Calculated(maxSpends, minimize, target, h).1);
      if target % COIN == 0 { SelectsNothingIfWhole(maxSpends, minimize, target, h); }
    }
  }

  lemma SelectsNothingIfWhole(maxSpends: Int32, minimize: bool, target: int, h: Counts)
    requires target > 0 && target % COIN == 0 && Total(h) >= target && !ExactWithin(maxSpends, target, h)
    ensures Calculated(maxSpends, minimize, target, h).0 > 0 <==>
      !(FirstOver(target, NONE, h, 0) == DENOMS && Total(Over(target, h)) == target)
  {
    hide *;
    OverCovers(target, h);
    if FirstOver(target, NONE, h, 0) < DENOMS {
      ByOneIsPositive(maxSpends, minimize, target, h);
    } else if Total(Over(target, h)) == target {
      ByManyIsZero(maxSpends, minimize, target, h);
    } else {
      OverAtMost(target, h);
      ByManyIsPositive(maxSpends, minimize, target, h);
    }
  }

  lemma CoinIsPositive()
    ensures COIN > 0
  {
  }

  lemma OverAtMost(target: int, h: Counts)
    ensures FirstOver(target, NONE, h, 0) <= DENOMS
  {
  }

  lemma NotPayable(target: int, h: Counts)
    requires target > Total(h)
    ensures !Payable(h, target)
  {
    forall c: Counts | Below(c, h) ensures Total(c) != target { MoreIsWorthMore(c, h, DENOMS); }
  }

  // ----- giving up is right

  /** Leaving out `m` coins below the `k`-th denomination costs no more than `m` coins of it. */
  lemma {:induction false} LeaveOut(c: Counts, k: nat, m: nat) returns (d: Counts)
    requires k < DENOMS && m <= Size(c, k)
    ensures Below(d, c) && Size(d, k) == Size(c, k) - m
    ensures Worth(d, k) + m * Value(k) >= Worth(c, k)
  {
    hide Value, Ratio;
    if k == 0 {
      d := c;
    } else {
      ValuesDivide(k);
      var n := Min(m, c[k - 1]);
      d := LeaveOut(c, k - 1, m - n);
      var e := d[k - 1 := c[k - 1] - n];
      WorthOf(d, e, k - 1);
      MulSplit(c[k - 1], n, Value(k - 1));
      MulUp(n, m - n, Value(k - 1), Value(k));
      d := e;
    }
  }

  lemma NotFewer(size: nat, t: nat, v: nat, s: int)
    requires size * v >= s && v > 0 && (t > 0 ==> s - t * v + v > 0)
    ensures size >= t
  {
    MulLeIf(size + 1, t, v);
    OneMore(size, v);
  }

  /** No coins that cover what is left to cover are fewer than those the largest-first choice goes on to take. */
  lemma {:induction false} OverIsFewestFrom(r: int, h: Counts, i: nat, c: Counts)
    requires i <= DENOMS && Below(c, h) && Worth(c, i) >= OverRest(r, h, i)
    ensures Size(Over(r, h), i) <= Size(c, i)
  {
    hide Value, Covering, Over, OverRest, CoveringAt;
    if i > 0 {
      var j, s := i - 1, OverRest(r, h, i);
      var v, t := Value(j), CoveringAt(r, h, j);
      OverStep(r, h, j);
      OverCount(r, h, j);
      CoveringIs(s, h[j], v);
      SizeCovers(c, j);
      NotFewer(Size(c, i), t, v, s);
      if OverRest(r, h, j) > 0 {
        NotCovered(r, h, j, j);
        MulSplit(t, c[j], v);
        var d := LeaveOut(c, j, t - c[j]);
        OverIsFewestFrom(r, h, j, d);
      } else {
        OverDone(r, h, j);
      }
    }
  }

  lemma OverCount(r: int, h: Counts, j: nat)
    requires j < DENOMS
    ensures Size(Over(r, h), j + 1) == Size(Over(r, h), j) + CoveringAt(r, h, j)
  {
    hide CoveringAt;
  }

  lemma SizeCovers(c: Counts, j: nat)
    requires j < DENOMS
    ensures Size(c, j + 1) * Value(j) >= Worth(c, j + 1)
  {
    hide Value;
    WorthAtMost(c, j);
    assert (Size(c, j) + c[j]) * Value(j) == Size(c, j) * Value(j) + c[j] * Value(j);
  }

  lemma {:induction false} OverDone(r: int, h: Counts, k: nat)
    requires k <= DENOMS && OverRest(r, h, k) <= 0
    ensures Size(Over(r, h), k) == 0
  {
    hide Value, Covering;
    if k > 0 {
      CoveringIs(OverRest(r, h, k), h[k - 1], Value(k - 1));
      OverDone(r, h, k - 1);
    }
  }

  /** No coins that cover the target are fewer than the largest ones that do. */
  lemma OverIsFewest(target: int, h: Counts, c: Counts)
    requires Below(c, h) && Total(c) >= target
    ensures Count(Over(target, h)) <= Count(c)
  {
    hide Over, Worth, Size;
    OverStart(target, h);
    OverIsFewestFrom(target, h, DENOMS, c);
  }

  /**
   * When nothing is selected although the coins cover the target, no coins within the limit on spends cover it; or the
   * target is not of whole coins, and the coins to overpay with are worth the target rounded up.
   */
  lemma GivesUpRightly(maxSpends: Int32, minimize: bool, target: int, h: Counts, c: Counts)
    requires target > 0 && Chosen(maxSpends, minimize, target, h).1 == NONE
    requires Below(c, h) && Total(c) >= target
    ensures Count(c) > maxSpends ||
      (target % COIN != 0 && Total(Calculated(maxSpends, minimize, target, h).1) == (target / COIN + 1) * COIN)
  {
    hide *;
    SelectsNothingIff(maxSpends, minimize, target, h);
    MoreIsWorthMore(c, h, DENOMS);
    TotalIs(c, h);
    CoinIsPositive();
    if target % COIN == 0 {
      OverIsFewest(target, h, c);
      OverIsBelow(target, h);
      GreedyIsFewest(target, h, Over(target, h));
      BeyondLimit(maxSpends, target, h);
    } else {
      var used := Calculated(maxSpends, minimize, target, h).1;
      CalculatedIsSound(maxSpends, minimize, target, h);
      SoundIs(target, h, Calculated(maxSpends, minimize, target, h).0, used);
      TotalIsWhole(used);
      RoundedUp(Total(used), target);
    }
  }

  lemma RoundedUp(amount: nat, target: nat)
    requires amount % COIN == 0 && target % COIN != 0 && target <= amount < target + COIN
    ensures amount == (target / COIN + 1) * COIN
  {
    assert amount == COIN * (amount / COIN) && target == COIN * (target / COIN) + target % COIN;
  }

  lemma TotalIs(c: Counts, h: Counts)
    ensures Total(c) == Worth(c, DENOMS) && Total(h) == Worth(h, DENOMS)
  {
  }

  lemma BeyondLimit(maxSpends: Int32, target: int, h: Counts)
    requires !ExactWithin(maxSpends, target, h) && Total(Greedy(target, h)) == target
    ensures Count(Greedy(target, h)) > maxSpends
  {
  }

  // ----- staying within the limit on spends

  lemma OverIsWithin(maxSpends: int, target: int, h: Counts, c: Counts)
    requires Below(c, h) && Total(c) >= target && Count(c) <= maxSpends
    ensures Count(Over(target, h)) <= maxSpends
  {
    OverIsFewest(target, h, c);
  }

  lemma {:induction false} SomeCoins(c: Counts, target: int)
    requires 0 < target <= Total(c)
    ensures Count(c) >= 1
  {
    hide Value;
    if Count(c) == 0 { CountZero(c, DENOMS); }
  }

  lemma OneIsOne(d: nat)
    requires d < DENOMS
    ensures Count(NONE[d := 1]) == 1
  {
    hide Value;
    NoneIsNothing();
    WorthOfUpdate(NONE, d, 1, DENOMS);
  }

  lemma AlternativeIsWithin(maxSpends: int, n: int, limit: Denom, target: int, h: Counts, used: Counts)
    ensures var alt := Minimized(maxSpends, n, limit, target, h, used); alt == (n, used) || Count(alt.1) <= maxSpends
  {
    hide AltAmount, ChangeCount, Greedy, Count;
  }

  /** Coins chosen with change stay within the limit if any coins within it cover the target. */
  lemma CalculatedIsWithin(maxSpends: int, minimize: bool, target: int, h: Counts, c: Counts)
    requires 0 < target <= Total(c) && Below(c, h) && Count(c) <= maxSpends
    ensures Count(Calculated(maxSpends, minimize, target, h).1) <= maxSpends
  {
    hide *;
    SomeCoins(c, target);
    OverIsWithin(maxSpends, target, h, c);
    var d := FirstOver(target, NONE, h, 0);
    var o := Over(target, h);
    if d < DENOMS {
      CalculatedByOne(maxSpends, minimize, target, h, d);
      OneIsOne(d);
      AlternativeIsWithin(maxSpends, Count(Change(Value(d) - target)), HighestBelow(h, d), target, h, NONE[d := 1]);
    } else {
      CalculatedByMany(maxSpends, minimize, target, h);
      AlternativeIsWithin(maxSpends, Count(Change(Total(o) - target)), HighestBelow(h, DENOMS), target, h, o);
    }
  }

  /** A selection stays within the limit on spends exactly when some coins within it cover the target. */
  lemma WithinLimitIff(maxSpends: Int32, minimize: bool, target: int, h: Counts)
    requires target > 0 && Chosen(maxSpends, minimize, target, h).1 != NONE
    ensures Count(Chosen(maxSpends, minimize, target, h).1) <= maxSpends <==>
      exists c: Counts :: Below(c, h) && Total(c) >= target && Count(c) <= maxSpends
  {
    hide *;
    ChosenCases(maxSpends, minimize, target, h, h);
    ChosenIsCorrect(maxSpends, minimize, target, h);
    var chosen := Chosen(maxSpends, minimize, target, h).1;
    if c: Counts :| Below(c, h) && Total(c) >= target && Count(c) <= maxSpends {
      if ExactWithin(maxSpends, target, h) {
        SomeCoins(c, target);
        NotNegative(maxSpends);
      } else {
        CalculatedIsWithin(maxSpends, minimize, target, h, c);
      }
    }
  }

  lemma NotNegative(maxSpends: Int32)
    ensures maxSpends >= 0 ==> AsSize(maxSpends) == maxSpends
  {
  }

  /** A negative limit is no limit: converted to a size it exceeds every number of spends of 63 bits. */
  lemma NegativeLimit(maxSpends: Int32, minimize: bool, target: int, h: Counts)
    requires maxSpends < 0 && Payable(h, target) && Count(Greedy(target, h)) < 0x8000_0000_0000_0000
    ensures Chosen(maxSpends, minimize, target, h) == (0, Greedy(target, h))
  {
    hide Greedy, Total, Count, Calculated, Payable;
    GreedyIsComplete(target, h);
    assert AsSize(maxSpends) == 0x1_0000_0000_0000_0000 + maxSpends;
  }

  // ----- when nothing is selected although the coins cover the target

  function Ones(n: nat): Counts
  {
    NONE[0 := n]
  }

  lemma OnlyOnes(c: Counts, n: nat)
    requires Below(c, Ones(n))
    ensures Total(c) == Count(c) * COIN && Count(c) <= n
  {
    hide Value;
    var ones := Ones(n);
    assert forall i :: 1 <= i < DENOMS ==> c[i] <= ones[i] == 0;
    WorthAbove(c, 1, DENOMS);
    LowestIsCoin(c);
  }

  lemma LowestIsCoin(c: Counts)
    ensures Worth(c, 1) == c[0] * COIN && Size(c, 1) == c[0] && Value(0) == COIN
  {
    assert Worth(c, 0) == 0 && Size(c, 0) == 0;
  }

  lemma OnesTotal(n: nat)
    ensures Below(Ones(n), Ones(n)) && Total(Ones(n)) == n * COIN && Count(Ones(n)) == n
  {
    hide Total, Count, Value;
    OnlyOnes(Ones(n), n);
    OnesCount(n);
  }

  lemma OnesCount(n: nat)
    ensures Count(Ones(n)) == n
  {
    hide Value;
    NoneIsNothing();
    WorthOfUpdate(NONE, 0, n, DENOMS);
  }

  /** Coins of the lowest denomination only: the least of them that cover the target leave no whole coin of change. */
  lemma OnesGiveUp(maxSpends: Int32, minimize: bool, target: int, n: nat)
    requires 0 < target && (n - 1) * COIN < target <= n * COIN
    requires !ExactWithin(maxSpends, target, Ones(n))
    ensures Chosen(maxSpends, minimize, target, Ones(n)).1 == NONE
  {
    hide *;
    var h := Ones(n);
    OnesTotal(n);
    ChosenCases(maxSpends, minimize, target, h, h);
    var d := FirstOver(target, NONE, h, 0);
    if d < DENOMS {
      OnesFirstOver(target, n);
      CalculatedByOne(maxSpends, minimize, target, h, d);
      LessThanCoin(Value(d), target);
      NothingToMinimize(maxSpends, HighestBelow(h, d), target, h, NONE[d := 1]);
    } else {
      var o := Over(target, h);
      OverIsBelow(target, h);
      OverCovers(target, h);
      OnlyOnes(o, n);
      LessOnes(Count(o), n);
      LessThanCoin(Total(o), target);
      CalculatedByMany(maxSpends, minimize, target, h);
      NothingToMinimize(maxSpends, HighestBelow(h, DENOMS), target, h, o);
    }
  }

  lemma LessOnes(k: nat, n: nat)
    requires k <= n
    ensures k * COIN <= n * COIN == (n - 1) * COIN + COIN && COIN > 0
  {
  }

  lemma OnesFirstOver(target: int, n: nat)
    requires 0 < target && FirstOver(target, NONE, Ones(n), 0) < DENOMS
    ensures FirstOver(target, NONE, Ones(n), 0) == 0 && target < Value(0) == COIN
  {
    hide FirstOver;
    var h := Ones(n);
    var d := FirstOver(target, NONE, h, 0);
    assert NONE[d] < h[d];
    LowestIsCoin(h);
  }

  lemma LessThanCoin(amount: int, target: int)
    requires target <= amount < target + COIN
    ensures Count(Change(amount - target)) == 0
  {
    ChangeIsDue(amount, target);
    hide Change, Count;
  }

  /** When exact payments take too many spends and no change can be had, nothing is selected. */
  lemma OnesBeyondLimit(maxSpends: Int32, minimize: bool, n: nat)
    requires 0 <= maxSpends < n
    ensures var h, target := Ones(n), n * COIN;
      Total(h) >= target && Chosen(maxSpends, minimize, target, h).1 == NONE
  {
    hide *;
    var h, target := Ones(n), n * COIN;
    OnesTotal(n);
    LessOnes(n, n);
    LessOnes(1, n);
    NotNegative(maxSpends);
    GreedyIsFewest(target, h, h);
    GreedyIsBelow(target, h);
    OnlyOnes(Greedy(target, h), n);
    SameOnes(Count(Greedy(target, h)), n);
    ExactIs(maxSpends, target, h);
    OnesGiveUp(maxSpends, minimize, target, n);
  }

  lemma SameOnes(k: nat, n: nat)
    requires k * COIN == n * COIN
    ensures k == n
  {
  }

  lemma ExactIs(maxSpends: Int32, target: int, h: Counts)
    ensures ExactWithin(maxSpends, target, h) <==>
      Total(Greedy(target, h)) == target && Count(Greedy(target, h)) <= AsSize(maxSpends)
  {
  }

  /** Ten mints of one coin each cannot be spent together when seven spends are allowed, and no fewer pay ten coins. */
  lemma TenMintsSevenSpends(minimize: bool)
    ensures Total(Ones(10)) == 10 * COIN && Chosen(7, minimize, 10 * COIN, Ones(10)).1 == NONE
  {
    hide *;
    OnesTotal(10);
    OnesBeyondLimit(7, minimize, 10);
  }

  const MAX_MONEY_OUT: nat := 100000000 * COIN

  /**
   * For every target that is not of whole coins nothing may be selected although coins within the limit cover it, so
   * that giving up is right for targets of whole coins only.
   */
  lemma FractionGivesUp(target: nat, minimize: bool)
    requires 0 < target <= MAX_MONEY_OUT && target % COIN != 0
    ensures var n := target / COIN + 1; var h := Ones(n);
      n <= 100000000 && Chosen(n, minimize, target, h).1 == NONE && Total(h) >= target && Count(h) <= n
  {
    hide Total, Count, Chosen, ExactWithin, Greedy, Ones;
    var n := target / COIN + 1;
    var h := Ones(n);
    OnesTotal(n);
    Quotient(target);
    TotalIsWhole(Greedy(target, h));
    ExactIs(n, target, h);
    OnesGiveUp(n, minimize, target, n);
  }

  lemma Quotient(target: nat)
    requires target % COIN != 0 && target <= MAX_MONEY_OUT
    ensures target / COIN * COIN < target < (target / COIN + 1) * COIN && target / COIN < 100000000
  {
  }
}
