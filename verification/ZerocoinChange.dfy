/**
 * Selecting mints when the amount cannot be paid exactly, or only with too many spends: the choice of coins to
 * overpay with and the change it calls for.
 */
module ZerocoinChange {
  import opened Denominations
  import opened Spending

  // ----- the choices, as functions of the target and the coins held

  function Min(a: nat, b: nat): nat
  {
    if a <= b then a else b
  }

  /** The smallest denomination from the `i`-th on that exceeds `r` and has a coin left; DENOMS if there is none. */
  function FirstOver(r: int, used: Counts, h: Counts, i: nat): (d: nat)
    requires i <= DENOMS
    ensures i <= d <= DENOMS
    ensures d < DENOMS ==> Value(d) > r && used[d] < h[d]
    ensures forall j :: i <= j < d ==> Value(j) <= r || used[j] >= h[j]
    decreases DENOMS - i
  {
    if i == DENOMS then DENOMS
    else if Value(i) > r && used[i] < h[i] then i
    else FirstOver(r, used, h, i + 1)
  }

  /** The largest denomination below the `k`-th that is held. */
  function HighestBelow(h: Counts, k: nat): (d: Denom)
    requires k <= DENOMS
    ensures d < k && (d >= 0 ==> h[d] > 0)
    ensures forall j :: d < j < k ==> h[j] == 0
  {
    if k == 0 then ERROR else if h[k - 1] > 0 then k - 1 else HighestBelow(h, k - 1)
  }

  /** The coins of denominations up to `limit`. */
  function Capped(h: Counts, limit: Denom): (c: Counts)
    ensures Below(c, h)
  {
    seq(DENOMS, i requires 0 <= i < DENOMS => if i <= limit then h[i] else 0)
  }

  /** Coins up to a denomination that are worth less than the target, largest first. */
  function Strict(target: int, h: Counts, limit: Denom): (c: Counts)
    ensures Below(c, h)
  {
    Greedy(target - 1, Capped(h, limit))
  }

  function FillUp(target: int, h: Counts, used: Counts): (d: nat)
    ensures d <= DENOMS && (d < DENOMS ==> used[d] < h[d])
  {
    var r := target - Total(used);
    if r < 0 then (if used[0] < h[0] then 0 else DENOMS) else FirstOver(r, used, h, 0)
  }

  /** The same, with the smallest coin on top that takes it over the target. */
  function Filled(target: int, h: Counts, limit: Denom): (c: Counts)
    ensures Below(c, h)
  {
    var used := Strict(target, h, limit);
    var d := FillUp(target, h, used);
    if d == DENOMS then used else used[d := used[d] + 1]
  }

  /** What coins and change have in common. */
  function Common(used: Counts, change: Counts): (c: Counts)
    ensures Below(c, used) && Below(c, change)
  {
    seq(DENOMS, i requires 0 <= i < DENOMS => Min(used[i], change[i]))
  }

  function Trimmed(used: Counts, change: Counts): Counts
  {
    Minus(used, Common(used, change))
  }

  function AltAmount(target: int, h: Counts, limit: Denom): nat
  {
    var used := Filled(target, h, limit);
    Total(Trimmed(used, Change(Total(used) - target)))
  }

  function ChangeCount(amount: int, target: int): nat
  {
    Count(Change(amount - target))
  }

  function Minimized(maxSpends: int, changeCount: int, limit: Denom, target: int, h: Counts, used: Counts): (int, Counts)
  {
    var amount := AltAmount(target, h, limit);
    var alt := Greedy(amount, h);
    if ChangeCount(amount, target) < changeCount && Count(alt) <= maxSpends
    then (ChangeCount(amount, target), alt) else (changeCount, used)
  }

  /** The number of coins of value `v` that cover `r`, at most `have`. */
  function Covering(r: int, have: nat, v: nat): (t: nat)
    requires v > 0
    ensures t <= have
  {
    if r <= 0 then 0 else Min(have, (r + v - 1) / v)
  }

  /** What is left to cover, or how far below zero it is, after denominations `i` and up. */
  function OverRest(r: int, h: Counts, i: nat): int
    requires i <= DENOMS
    decreases DENOMS - i
  {
    if i == DENOMS then r
    else
      var s := OverRest(r, h, i + 1);
      s - Covering(s, h[i], Value(i)) * Value(i)
  }

  function CoveringAt(r: int, h: Counts, i: nat): (t: nat)
    requires i < DENOMS
    ensures t <= h[i]
  {
    Covering(OverRest(r, h, i + 1), h[i], Value(i))
  }

  /** The largest coins that cover the target. */
  function Over(r: int, h: Counts): (c: Counts)
    ensures Below(c, h)
  {
    seq(DENOMS, i requires 0 <= i < DENOMS => CoveringAt(r, h, i))
  }

  function One(d: nat): Counts
    requires d < DENOMS
  {
    NONE[d := 1]
  }

  /** The number of coins of change and the coins to spend. */
  function Calculated(maxSpends: int, minimize: bool, target: int, h: Counts): (int, Counts)
  {
    var d := FirstOver(target, NONE, h, 0);
    if d < DENOMS then
      var n := ChangeCount(Value(d), target);
      var alt := Minimized(maxSpends, n, HighestBelow(h, d), target, h, One(d));
      if minimize && alt.0 < n then alt else (n, One(d))
    else
      var o := Over(target, h);
      var n := ChangeCount(Total(o), target);
      var alt := Minimized(maxSpends, n, HighestBelow(h, DENOMS), target, h, o);
      if !minimize && Count(o) < Count(alt.1) then (n, o) else alt
  }

  // ----- what they achieve

  lemma {:induction false} MoreIsWorthMore(c: Counts, d: Counts, k: nat)
    requires Below(c, d) && k <= DENOMS
    ensures Worth(c, k) <= Worth(d, k) && Size(c, k) <= Size(d, k)
  {
    hide Value;
    if k > 0 {
      MoreIsWorthMore(c, d, k - 1);
      MulLe(c[k - 1], d[k - 1], Value(k - 1));
    }
  }

  lemma {:induction false} WorthOfUpdate(c: Counts, d: nat, n: nat, k: nat)
    requires d < k <= DENOMS
    ensures Worth(c[d := n], k) == Worth(c, k) + (n - c[d]) * Value(d)
    ensures Size(c[d := n], k) == Size(c, k) + n - c[d]
  {
    hide Value;
    if d < k - 1 {
      WorthOfUpdate(c, d, n, k - 1);
    } else {
      WorthOf(c, c[d := n], d);
    }
  }

  lemma TotalOfOneMore(c: Counts, d: nat)
    requires d < DENOMS
    ensures Total(c[d := c[d] + 1]) == Total(c) + Value(d)
  {
    WorthOfUpdate(c, d, c[d] + 1, DENOMS);
  }

  lemma TotalOfOne(d: nat)
    requires d < DENOMS
    ensures Total(One(d)) == Value(d)
  {
    TotalOfOneMore(NONE, d);
    NothingBelow(NONE, DENOMS);
  }

  // ----- covering the target with the largest coins

  lemma CoveringIs(r: int, have: nat, v: nat)
    requires v > 0
    ensures r > 0 ==> r - Covering(r, have, v) * v + v > 0
    ensures r > 0 && r - Covering(r, have, v) * v > 0 ==> Covering(r, have, v) == have
    ensures r <= 0 ==> Covering(r, have, v) == 0
  {
    if r > 0 {
      var q := (r + v - 1) / v;
      assert r + v - 1 == q * v + (r + v - 1) % v;
      MulLe(Covering(r, have, v), q, v);
    }
  }

  /** As long as something is left to cover, all coins have been taken. */
  lemma {:induction false} NotCovered(r: int, h: Counts, i: nat, j: nat)
    requires i <= j < DENOMS && OverRest(r, h, i) > 0
    ensures CoveringAt(r, h, j) == h[j] && OverRest(r, h, j) > 0 && OverRest(r, h, j + 1) > 0
    decreases j - i
  {
    hide Value, Covering;
    CoveringIs(OverRest(r, h, i + 1), h[i], Value(i));
    assert Covering(OverRest(r, h, i + 1), h[i], Value(i)) * Value(i) >= 0;
    if i < j { NotCovered(r, h, i + 1, j); }
  }

  lemma {:induction false} OverAddsUp(r: int, h: Counts, i: nat)
    requires i <= DENOMS
    ensures Total(Over(r, h)) - Worth(Over(r, h), i) == r - OverRest(r, h, i)
    decreases DENOMS - i
  {
    hide Value, Covering;
    if i < DENOMS { OverAddsUp(r, h, i + 1); }
  }

  /** The largest coins cover every target that all coins together cover. */
  lemma OverCovers(r: int, h: Counts)
    requires Total(h) >= r
    ensures Total(Over(r, h)) >= r
  {
    OverAddsUp(r, h, 0);
    OverIsAll(r, h);
  }

  lemma OverIsAll(r: int, h: Counts)
    ensures OverRest(r, h, 0) > 0 ==> Over(r, h) == h
  {
    hide OverRest, CoveringAt;
    if OverRest(r, h, 0) > 0 {
      forall j | 0 <= j < DENOMS ensures Over(r, h)[j] == h[j] { NotCovered(r, h, 0, j); }
    }
  }

  /** Until the target is covered, the choice that stays below it takes the same coins. */
  lemma {:induction false} StrictFollows(r: int, h: Counts, i: nat)
    requires i <= DENOMS && OverRest(r, h, i) > 0
    ensures Rest(r - 1, h, i) == OverRest(r, h, i) - 1
    decreases DENOMS - i
  {
    hide Value, Covering, Taken;
    if i < DENOMS {
      NotCovered(r, h, i, i);
      StrictFollows(r, h, i + 1);
      var s := OverRest(r, h, i + 1);
      assert h[i] * Value(i) <= s - 1;
      AtLeast(s - 1, h[i], Value(i), h[i]);
    }
  }

  /** The denomination whose coins take the choice over the target. */
  lemma {:induction false} OverAt(r: int, h: Counts, k: nat) returns (i: nat)
    requires k <= DENOMS && OverRest(r, h, k) < 0 && r > 0
    ensures k <= i < DENOMS && OverRest(r, h, i) < 0 < OverRest(r, h, i + 1)
    decreases DENOMS - k
  {
    hide Value, Covering;
    CoveringIs(OverRest(r, h, k + 1), h[k], Value(k));
    if OverRest(r, h, k + 1) > 0 { i := k; } else { i := OverAt(r, h, k + 1); }
  }

  lemma MulLeIf(a: nat, b: nat, v: nat)
    ensures a <= b ==> a * v <= b * v
  {
  }

  lemma StrictStops(r: int, have: nat, v: nat)
    requires v > 0 && r > 0 && r - Covering(r, have, v) * v < 0
    ensures Taken(r - 1, have, v) < have && r - 1 - Taken(r - 1, have, v) * v < v - 1
  {
    var c, t := Covering(r, have, v), Taken(r - 1, have, v);
    CoveringIs(r, have, v);
    TakenFits(r - 1, have, v);
    hide Covering, Taken;
    assert (c - 1) * v == c * v - v;
    MulLeIf(c, t, v);
    AtLeast(r - 1, have, v, c - 1);
  }

  /** When the largest coins overshoot, there is a coin that takes the coins below the target over it. */
  lemma FilledExceeds(r: int, h: Counts)
    requires r > 0 && Total(Over(r, h)) > r
    ensures Total(Filled(r, h, HighestBelow(h, DENOMS))) > r
  {
    hide *;
    OverAddsUp(r, h, 0);
    NothingAtZero(Over(r, h));
    var i := OverAt(r, h, 0);
    RestStops(r, h, i);
    RestFalls(r - 1, h, 0, i);
    HeldIsCapped(h);
    StrictIs(r, h, HighestBelow(h, DENOMS), i);
    FillIsFound(r, h, HighestBelow(h, DENOMS), i);
  }

  lemma NothingAtZero(c: Counts)
    ensures Worth(c, 0) == 0
  {
  }

  lemma HeldIsCapped(h: Counts)
    ensures Capped(h, HighestBelow(h, DENOMS)) == h
  {
  }

  lemma StrictIs(target: int, h: Counts, limit: Denom, i: nat)
    requires i < DENOMS
    ensures Strict(target, h, limit)[i] == TakenAt(target - 1, Capped(h, limit), i)
  {
    hide TakenAt, Capped;
  }

  /** Where the largest coins overshoot, the coins below the target leave one out that would exceed the rest. */
  lemma RestStops(r: int, h: Counts, i: nat)
    requires r > 0 && i < DENOMS && OverRest(r, h, i) < 0 < OverRest(r, h, i + 1)
    ensures TakenAt(r - 1, h, i) < h[i] && Rest(r - 1, h, i) + 1 < Value(i)
  {
    hide Value, Covering, Taken;
    StrictFollows(r, h, i + 1);
    StrictStops(OverRest(r, h, i + 1), h[i], Value(i));
  }

  lemma {:induction false} RestFalls(r: int, h: Counts, i: nat, j: nat)
    requires i <= j <= DENOMS
    ensures Rest(r, h, i) <= Rest(r, h, j)
    decreases j - i
  {
    hide Value, Taken;
    if i < j {
      RestFalls(r, h, i + 1, j);
      assert Taken(Rest(r, h, i + 1), h[i], Value(i)) * Value(i) >= 0;
    }
  }

  lemma FillIsFound(target: int, h: Counts, limit: Denom, i: nat)
    requires target > 0 && i < DENOMS && Strict(target, h, limit)[i] < h[i]
    requires Rest(target - 1, Capped(h, limit), 0) + 1 < Value(i)
    ensures Total(Filled(target, h, limit)) > target
  {
    hide Greedy, Rest, Value, Capped, Worth;
    var used := Strict(target, h, limit);
    GreedyTotal(target - 1, Capped(h, limit));
    RestBounds(target - 1, Capped(h, limit), 0);
    var d := FillUp(target, h, used);
    assert d < DENOMS && Value(d) > target - Total(used);
    TotalOfOneMore(used, d);
  }

  /** A single coin that exceeds the target also takes the smaller coins below the target over it. */
  lemma FilledExceedsBelow(target: int, h: Counts, d: nat)
    requires target > 0 && d < DENOMS && Value(d) > target && h[d] > 0
    ensures Total(Filled(target, h, HighestBelow(h, d))) > target
  {
    var c := Capped(h, HighestBelow(h, d));
    RestBounds(target - 1, c, 0);
    FillIsFound(target, h, HighestBelow(h, d), d);
  }

  // ----- taking out of the coins what would come back as change

  lemma TrimmedCovers(used: Counts, target: int)
    requires Total(used) >= target
    ensures target <= Total(Trimmed(used, Change(Total(used) - target))) <= Total(used)
  {
    var change := Change(Total(used) - target);
    ChangePays(Total(used) - target);
    hide Change, Value;
    MinusWorth(used, Common(used, change), DENOMS);
    MoreIsWorthMore(Common(used, change), change, DENOMS);
  }

  /** The amount found can be paid exactly; it is the target at least when the coins it came from were. */
  lemma AltIsPayable(target: int, h: Counts, limit: Denom)
    ensures Total(Greedy(AltAmount(target, h, limit), h)) == AltAmount(target, h, limit)
    ensures Total(Filled(target, h, limit)) >= target ==> AltAmount(target, h, limit) >= target
  {
    var used := Filled(target, h, limit);
    var change := Change(Total(used) - target);
    var c := Trimmed(used, change);
    hide Greedy, Change, Worth, Filled;
    GreedyIsComplete(Total(c), h);
    assert Payable(h, Total(c)) by { assert Below(c, h) && Total(c) == Total(c); }
    if Total(used) >= target { TrimmedCovers(used, target); }
  }

  // ----- what the alternative is

  function Plenty(r: nat): Counts
  {
    seq(DENOMS, i => r)
  }

  /** What is left for the denominations below the `i`-th, after the larger coins of the change. */
  lemma ChangeRest(r: nat, i: nat)
    requires i < DENOMS
    ensures var c := Change(r);
      Rest(r, Plenty(r), i + 1) == c[i] * Value(i) + Rest(r, Plenty(r), i) && c[i] <= r
      && Worth(c, i) <= Rest(r, Plenty(r), i) < Value(i)
  {
    hide Value, Taken;
    var h := Plenty(r);
    assert Change(r) == Greedy(r, h);
    GreedyAddsUp(r, h, i);
    GreedyTotal(r, h);
    RestBounds(r, h, 0);
    RestBounds(r, h, i + 1);
    TakenFits(Rest(r, h, i + 1), r, Value(i));
    MulAtLeast(r, Value(i));
  }

  /** Taking coins out of the change that is made of an amount leaves the change of what is left of it. */
  lemma {:induction false} ChangeLess(r: nat, d: Counts, i: nat)
    requires i <= DENOMS && Below(d, Change(r))
    ensures Total(d) <= r
    ensures Rest(r - Total(d), Plenty(r - Total(d)), i) == Rest(r, Plenty(r), i) - Worth(d, i)
    ensures forall j :: i <= j < DENOMS ==> Change(r - Total(d))[j] == Change(r)[j] - d[j]
    decreases DENOMS - i
  {
    hide Value, Taken, Worth, Greedy, Rest;
    ChangePays(r);
    MoreIsWorthMore(d, Change(r), DENOMS);
    TotalIsWorth(d);
    TotalIsWorth(Change(r));
    if i == DENOMS {
      RestStart(r, Plenty(r));
      RestStart(r - Total(d), Plenty(r - Total(d)));
    } else {
      ChangeLess(r, d, i + 1);
      ChangeLessAt(r, d, i);
    }
  }

  lemma TotalIsWorth(c: Counts)
    ensures Total(c) == Worth(c, DENOMS)
  {
  }

  lemma ChangeLessAt(r: nat, d: Counts, i: nat)
    requires i < DENOMS && Below(d, Change(r)) && Total(d) <= r
    requires Rest(r - Total(d), Plenty(r - Total(d)), i + 1) == Rest(r, Plenty(r), i + 1) - Worth(d, i + 1)
    ensures Rest(r - Total(d), Plenty(r - Total(d)), i) == Rest(r, Plenty(r), i) - Worth(d, i)
    ensures Change(r - Total(d))[i] == Change(r)[i] - d[i]
  {
    hide *;
    var s, c := r - Total(d), Change(r);
    BelowAt(d, c, i);
    var n := c[i] - d[i];
    ChangeRest(r, i);
    MoreIsWorthMore(d, c, i);
    WorthStep(d, i);
    ChangeStep(s, i);
    MulSplit(c[i], d[i], Value(i));
    var left := Rest(r, Plenty(r), i) - Worth(d, i);
    assert Rest(s, Plenty(s), i + 1) == n * Value(i) + left && 0 <= left < Value(i);
    RestAtMost(s, i + 1);
    MulAtLeast(n, Value(i));
    TakenIs(Rest(s, Plenty(s), i + 1), s, Value(i), n);
  }

  lemma BelowAt(d: Counts, c: Counts, i: nat)
    requires Below(d, c) && i < DENOMS
    ensures d[i] <= c[i]
  {
  }

  lemma WorthStep(d: Counts, i: nat)
    requires i < DENOMS
    ensures Worth(d, i + 1) == Worth(d, i) + d[i] * Value(i)
  {
  }

  lemma RestAtMost(s: nat, i: nat)
    requires i <= DENOMS
    ensures Rest(s, Plenty(s), i) <= s
  {
    RestBounds(s, Plenty(s), i);
  }

  lemma ChangeStep(s: nat, i: nat)
    requires i < DENOMS
    ensures Change(s)[i] == Taken(Rest(s, Plenty(s), i + 1), s, Value(i))
    ensures Rest(s, Plenty(s), i) == Rest(s, Plenty(s), i + 1) - Change(s)[i] * Value(i)
  {
    hide Taken, Value;
    assert Change(s) == Greedy(s, Plenty(s));
  }

  /** After the overlap is removed, no coin that is spent comes back as change. */
  lemma NoneComesBack(used: Counts, target: int)
    ensures var kept := Trimmed(used, Change(Total(used) - target));
      forall i :: 0 <= i < DENOMS ==> kept[i] == 0 || Change(Total(kept) - target)[i] == 0
  {
    hide *;
    var r := Total(used) - target;
    var common := Common(used, Change(r));
    OverlapIs(used, Change(r));
    if r >= 0 {
      OverlapWorth(used, common);
      ChangeLess(r, common, 0);
    } else {
      NoChangeOfNegative(r);
      NoOverlap(used, common);
    }
  }

  lemma OverlapIs(used: Counts, change: Counts)
    ensures var common := Common(used, change);
      && Below(common, used) && Below(common, change) && Trimmed(used, change) == Minus(used, common)
      && forall i :: 0 <= i < DENOMS ==> Minus(used, common)[i] == used[i] - common[i] && common[i] in [used[i], change[i]]
  {
  }

  lemma OverlapWorth(used: Counts, common: Counts)
    requires Below(common, used)
    ensures Total(Minus(used, common)) == Total(used) - Total(common)
  {
    hide Worth;
    MinusWorth(used, common, DENOMS);
  }

  lemma NoChangeOfNegative(r: int)
    requires r < 0
    ensures forall i :: 0 <= i < DENOMS ==> Change(r)[i] == 0
  {
    hide Greedy;
    assert Below(Change(r), NONE);
  }

  lemma NoOverlap(used: Counts, common: Counts)
    requires Below(common, used) && forall i :: 0 <= i < DENOMS ==> common[i] == 0
    ensures Minus(used, common) == used
  {
  }

  /** The coins strictly below the target: only of denominations up to the limit, and the largest that there are. */
  ghost predicate IsStrictlyBelow(below: Counts, target: int, h: Counts, limit: Denom)
  {
    && Below(below, h) && (forall i :: limit < i < DENOMS ==> below[i] == 0)
    && (target > 0 ==> Total(below) < target) && (target <= 0 ==> below == NONE)
    && (forall i :: 0 <= i <= limit && below[i] < h[i] ==> target - (Total(below) - Worth(below, i)) <= Value(i))
  }

  /** At most one coin is added: the smallest that is left and worth more than what the others leave of the target. */
  ghost predicate IsFilledUp(filled: Counts, below: Counts, target: int, h: Counts)
  {
    || (filled == below && forall i :: 0 <= i < DENOMS ==> below[i] >= h[i] || Value(i) <= target - Total(below))
    || exists d: nat :: d < DENOMS && filled == below[d := below[d] + 1] && below[d] < h[d]
         && Value(d) > target - Total(below)
         && forall i :: 0 <= i < d ==> below[i] >= h[i] || Value(i) <= target - Total(below)
  }

  /** What is left of coins when those that would come back as change are taken out. */
  ghost predicate IsWithoutOverlap(kept: Counts, filled: Counts, target: int)
  {
    && Below(kept, filled)
    && (forall i :: 0 <= i < DENOMS ==> kept[i] == 0 || Change(Total(kept) - target)[i] == 0)
    && (forall i :: 0 <= i < DENOMS ==> filled[i] - kept[i] <= Change(Total(filled) - target)[i])
  }

  /** The alternative amount is that of coins strictly below the target plus at most one, none of which comes back. */
  lemma AlternativeIs(target: nat, h: Counts, limit: Denom) returns (below: Counts, filled: Counts, kept: Counts)
    ensures IsStrictlyBelow(below, target, h, limit) && IsFilledUp(filled, below, target, h)
    ensures IsWithoutOverlap(kept, filled, target) && AltAmount(target, h, limit) == Total(kept)
  {
    hide *;
    below, filled := Strict(target, h, limit), Filled(target, h, limit);
    kept := Trimmed(filled, Change(Total(filled) - target));
    StrictlyBelow(target, h, limit);
    FilledUp(target, h, limit);
    WithoutOverlap(filled, target);
    AltAmountIs(target, h, limit);
  }

  lemma AltAmountIs(target: int, h: Counts, limit: Denom)
    ensures var filled := Filled(target, h, limit);
      AltAmount(target, h, limit) == Total(Trimmed(filled, Change(Total(filled) - target)))
  {
    hide Filled, Trimmed, Change, Total;
  }

  lemma WithoutOverlap(filled: Counts, target: int)
    ensures IsWithoutOverlap(Trimmed(filled, Change(Total(filled) - target)), filled, target)
  {
    hide Trimmed, Change, Total, Common;
    NoneComesBack(filled, target);
    OverlapIs(filled, Change(Total(filled) - target));
  }

  lemma StrictlyBelow(target: int, h: Counts, limit: Denom)
    ensures IsStrictlyBelow(Strict(target, h, limit), target, h, limit)
  {
    var below := Strict(target, h, limit);
    hide Value, Worth, Strict, Total;
    forall i | 0 <= i < DENOMS
      ensures i > limit ==> below[i] == 0
      ensures i <= limit && below[i] < h[i] ==> target - (Total(below) - Worth(below, i)) <= Value(i)
      ensures target <= 0 ==> below[i] == 0
    {
      StrictAt(target, h, limit, i);
    }
    StrictTotal(target, h, limit);
  }

  lemma StrictTotal(target: int, h: Counts, limit: Denom)
    ensures Below(Strict(target, h, limit), h) && (target > 0 ==> Total(Strict(target, h, limit)) < target)
  {
    hide Value, Worth, Taken, Greedy, Rest;
    GreedyTotal(target - 1, Capped(h, limit));
    RestBounds(target - 1, Capped(h, limit), 0);
  }

  lemma StrictAt(target: int, h: Counts, limit: Denom, i: nat)
    requires i < DENOMS
    ensures var below := Strict(target, h, limit);
      && (i > limit ==> below[i] == 0) && (target <= 0 ==> below[i] == 0)
      && (i <= limit && below[i] < h[i] ==> target - (Total(below) - Worth(below, i)) <= Value(i))
  {
    var c, r := Capped(h, limit), target - 1;
    StrictIs(target, h, limit, i);
    CappedAt(h, limit, i);
    GreedyAddsUp(r, c, i);
    RestBounds(r, c, i + 1);
    TakenFits(Rest(r, c, i + 1), c[i], Value(i));
    RestStep(r, c, i);
    hide Value, Worth, Taken, Rest, Total, TakenAt, Capped;
  }

  lemma RestStep(r: int, h: Counts, i: nat)
    requires i < DENOMS
    ensures TakenAt(r, h, i) == Taken(Rest(r, h, i + 1), h[i], Value(i))
    ensures Rest(r, h, i) == Rest(r, h, i + 1) - TakenAt(r, h, i) * Value(i)
  {
    hide Taken, Value;
  }

  lemma FilledUp(target: nat, h: Counts, limit: Denom)
    ensures IsFilledUp(Filled(target, h, limit), Strict(target, h, limit), target, h)
  {
    hide *;
    StrictTotal(target, h, limit);
    if target == 0 { StrictOfNothing(h, limit); }
    var below := Strict(target, h, limit);
    FillUpIs(target, h, below);
    FilledIs(target, h, limit);
    FilledFrom(target, h, below, FirstOver(target - Total(below), below, h, 0));
  }

  lemma FilledIs(target: int, h: Counts, limit: Denom)
    ensures var used := Strict(target, h, limit); var d := FillUp(target, h, used);
      d <= DENOMS && Filled(target, h, limit) == if d == DENOMS then used else used[d := used[d] + 1]
  {
    hide Strict, FillUp;
  }

  lemma FilledFrom(target: int, h: Counts, below: Counts, d: nat)
    requires d == FirstOver(target - Total(below), below, h, 0)
    ensures d <= DENOMS && IsFilledUp(if d == DENOMS then below else below[d := below[d] + 1], below, target, h)
  {
    hide Value, Total, FirstOver;
  }

  lemma StrictOfNothing(h: Counts, limit: Denom)
    ensures Total(Strict(0, h, limit)) == 0
  {
    StrictlyBelow(0, h, limit);
    hide Strict, Value;
    NothingBelow(Strict(0, h, limit), DENOMS);
  }

  // ----- the result

  /** The coins are held, they cover the target, and the number returned is that of the coins of change. */
  ghost predicate Sound(target: int, h: Counts, n: int, used: Counts)
  {
    Below(used, h) && Total(used) >= target && n == ChangeCount(Total(used), target)
  }

  lemma MinimizedIsSound(maxSpends: int, n: int, limit: Denom, target: int, h: Counts, used: Counts)
    requires Sound(target, h, n, used) && (n > 0 ==> Total(Filled(target, h, limit)) >= target)
    ensures var alt := Minimized(maxSpends, n, limit, target, h, used);
      Sound(target, h, alt.0, alt.1) && alt.0 <= n
  {
    hide Filled, AltAmount, Greedy, Change, Worth;
    AltIsPayable(target, h, limit);
  }

  /**
   * For every target that the coins held cover: the coins chosen are held and cover it, and the number
   * returned is the number of coins in which the difference comes back.
   */
  lemma CalculatedIsSound(maxSpends: int, minimize: bool, target: int, h: Counts)
    requires 0 < target <= Total(h)
    ensures var r := Calculated(maxSpends, minimize, target, h); Sound(target, h, r.0, r.1)
  {
    hide Worth, Minimized, Value, Filled, Over, ChangeCount, Sound;
    var d := FirstOver(target, NONE, h, 0);
    if d < DENOMS { OneIsSound(maxSpends, target, h, d); } else { OverIsSound(maxSpends, target, h); }
  }

  lemma OneIsSound(maxSpends: int, target: int, h: Counts, d: nat)
    requires target > 0 && d < DENOMS && Value(d) > target && h[d] > 0
    ensures var n := ChangeCount(Value(d), target);
      Sound(target, h, n, One(d))
      && var alt := Minimized(maxSpends, n, HighestBelow(h, d), target, h, One(d)); Sound(target, h, alt.0, alt.1)
  {
    hide Worth, Minimized, Value, Filled, ChangeCount;
    TotalOfOne(d);
    FilledExceedsBelow(target, h, d);
    MinimizedIsSound(maxSpends, ChangeCount(Value(d), target), HighestBelow(h, d), target, h, One(d));
  }

  lemma OverIsSound(maxSpends: int, target: int, h: Counts)
    requires 0 < target <= Total(h)
    ensures var o := Over(target, h);
      var n := ChangeCount(Total(o), target);
      Sound(target, h, n, o)
      && var alt := Minimized(maxSpends, n, HighestBelow(h, DENOMS), target, h, o); Sound(target, h, alt.0, alt.1)
  {
    hide Worth, Minimized, Value, Filled, Over, ChangeCount;
    var o := Over(target, h);
    OverCovers(target, h);
    NoChange(target);
    if Total(o) > target { FilledExceeds(target, h); }
    MinimizedIsSound(maxSpends, ChangeCount(Total(o), target), HighestBelow(h, DENOMS), target, h, o);
  }

  lemma NoChange(target: int)
    ensures ChangeCount(target, target) == 0
  {
    hide Value, Worth, Size, Change;
    ChangePays(0);
    NothingBelow(NONE, DENOMS);
    assert Total(NONE) == 0 && Count(NONE) == 0;
  }

  /** Change is due, in at least one coin, exactly when the difference is a coin or more. */
  lemma ChangeIsDue(amount: int, target: int)
    requires amount >= target
    ensures ChangeCount(amount, target) > 0 <==> amount - target >= COIN
  {
    var c := Change(amount - target);
    ChangePays(amount - target);
    hide Change, Value;
    if Count(c) > 0 { CountIsWorth(c, DENOMS); } else { CountZero(c, DENOMS); }
  }

  lemma {:induction false} CountZero(c: Counts, k: nat)
    requires k <= DENOMS && Size(c, k) == 0
    ensures Worth(c, k) == 0
  {
    hide Value;
    if k > 0 { CountZero(c, k - 1); }
  }

  lemma {:induction false} CountIsWorth(c: Counts, k: nat)
    requires k <= DENOMS
    ensures Worth(c, k) >= Size(c, k) * COIN
  {
    hide Value;
    if k > 0 {
      CountIsWorth(c, k - 1);
      MulUp(0, c[k - 1], COIN, Value(k - 1));
      assert c[k - 1] * COIN <= c[k - 1] * Value(k - 1) by { MulLe2(c[k - 1], COIN, Value(k - 1)); }
    }
  }

  lemma MulLe2(a: nat, u: nat, v: nat)
    requires u <= v
    ensures a * u <= a * v
  {
  }

  // ----- the methods

  method GetNumberOfCoinsUsed(mapChange: Counts) returns (nChangeCount: nat)
    ensures nChangeCount == Count(mapChange)
  {
    nChangeCount := 0;
    for denom := 0 to DENOMS
      invariant nChangeCount == Size(mapChange, denom)
    {
      nChangeCount := nChangeCount + mapChange[denom];
    }
  }

  method GetMaxDenomHeld(mapCoinsHeld: Counts) returns (maxDenom: Denom)
    ensures maxDenom == HighestBelow(mapCoinsHeld, DENOMS)
  {
    maxDenom := ERROR;
    var coin := DENOMS;
    while coin > 0
      invariant 0 <= coin <= DENOMS && maxDenom == ERROR
      invariant HighestBelow(mapCoinsHeld, DENOMS) == HighestBelow(mapCoinsHeld, coin)
    {
      coin := coin - 1;
      if mapCoinsHeld[coin] != 0 {
        maxDenom := coin;
        break;
      }
    }
  }

  method GetNextLowerDenomHeld(thisDenom: Denom, mapCoinsHeld: Counts) returns (nextValue: Denom)
    ensures nextValue == if thisDenom == ERROR then ERROR else HighestBelow(mapCoinsHeld, thisDenom)
  {
    nextValue := ERROR;
    var denom := DENOMS;
    while denom > 0
      invariant 0 <= denom <= DENOMS && nextValue == ERROR
      invariant 0 <= thisDenom < denom || (thisDenom >= 0 &&
                HighestBelow(mapCoinsHeld, thisDenom) == HighestBelow(mapCoinsHeld, denom)) || thisDenom == ERROR
    {
      denom := denom - 1;
      if denom < thisDenom && mapCoinsHeld[denom] != 0 {
        nextValue := denom;
        break;
      }
    }
  }

  /** Looks for a choice with less change: coins below the target, one more to exceed it, no coin on both sides. */
  method MinimizeChange(nMaxNumberOfSpends: int, nChangeCount: int, nextToMaxDenom: Denom, nValueTarget: int,
                        mapOfDenomsHeld: Counts, savedMapOfDenomsUsed: Counts)
    returns (n: int, mapOfDenomsUsed: Counts)
    ensures (n, mapOfDenomsUsed) == Minimized(nMaxNumberOfSpends, nChangeCount, nextToMaxDenom, nValueTarget,
                                              mapOfDenomsHeld, savedMapOfDenomsUsed)
    ensures var alt := Greedy(AltAmount(nValueTarget, mapOfDenomsHeld, nextToMaxDenom), mapOfDenomsHeld);
      && Total(alt) == AltAmount(nValueTarget, mapOfDenomsHeld, nextToMaxDenom)
      && (Count(alt) <= nMaxNumberOfSpends ==> n <= ChangeCount(Total(alt), nValueTarget) && n <= nChangeCount)
      && ((n, mapOfDenomsUsed) == (nChangeCount, savedMapOfDenomsUsed)
          || ((n, mapOfDenomsUsed) == (ChangeCount(Total(alt), nValueTarget), alt) && Count(alt) <= nMaxNumberOfSpends))
  {
    AltIsPayable(nValueTarget, mapOfDenomsHeld, nextToMaxDenom);
    hide Value, Worth, Size, Greedy, Change, Strict, FillUp, Trimmed;
    var AmountUsed;
    mapOfDenomsUsed, AmountUsed := StayBelow(nValueTarget, nextToMaxDenom, mapOfDenomsHeld);
    mapOfDenomsUsed, AmountUsed := GoOver(nValueTarget, mapOfDenomsHeld, mapOfDenomsUsed, AmountUsed);
    assert mapOfDenomsUsed == Filled(nValueTarget, mapOfDenomsHeld, nextToMaxDenom);
    var mapAltChange := GetChange(AmountUsed - nValueTarget);
    mapOfDenomsUsed, AmountUsed := RemoveOverlap(mapOfDenomsUsed, mapAltChange, AmountUsed);
    assert AmountUsed == AltAmount(nValueTarget, mapOfDenomsHeld, nextToMaxDenom);
    // Meet the amount found exactly, with the fewest coins.
    mapOfDenomsUsed := GetSpendCoins(AmountUsed, mapOfDenomsHeld);
    var nCoinCount := GetNumberOfCoinsUsed(mapOfDenomsUsed);
    mapAltChange := GetChange(AmountUsed - nValueTarget);
    var AltChangeCount := GetNumberOfCoinsUsed(mapAltChange);
    if AltChangeCount < nChangeCount && nCoinCount <= nMaxNumberOfSpends {
      n := AltChangeCount;
    } else {
      mapOfDenomsUsed := savedMapOfDenomsUsed;
      n := nChangeCount;
    }
  }

  /** Takes coins up to a denomination, largest first, as long as they are worth less than what remains. */
  method StayBelow(nValueTarget: int, nextToMaxDenom: Denom, mapOfDenomsHeld: Counts)
    returns (mapOfDenomsUsed: Counts, AmountUsed: nat)
    ensures mapOfDenomsUsed == Strict(nValueTarget, mapOfDenomsHeld, nextToMaxDenom)
    ensures AmountUsed == Total(mapOfDenomsUsed)
  {
    hide Value, TakenAt, Rest, Greedy, Worth, Capped;
    ghost var r, h := nValueTarget - 1, Capped(mapOfDenomsHeld, nextToMaxDenom);
    mapOfDenomsUsed, AmountUsed := NONE, 0;
    var nRemainingValue, denom := nValueTarget, DENOMS;
    RestStart(r, h);
    while denom > 0
      invariant 0 <= denom <= DENOMS && nRemainingValue - 1 == Rest(r, h, denom)
      invariant AmountUsed == nValueTarget - nRemainingValue
      invariant ChosenFrom(mapOfDenomsUsed, r, h, denom)
    {
      denom := denom - 1;
      CappedAt(mapOfDenomsHeld, nextToMaxDenom, denom);
      var n := 0;
      ghost var s := nRemainingValue;
      if denom <= nextToMaxDenom {
        var nValue, again := Value(denom), true;
        while again
          invariant n <= mapOfDenomsHeld[denom] && nRemainingValue == s - n * nValue && (n > 0 ==> nRemainingValue > 0)
          invariant AmountUsed == nValueTarget - nRemainingValue
          invariant !again ==> nRemainingValue <= nValue || n == mapOfDenomsHeld[denom]
          decreases mapOfDenomsHeld[denom] - n, again
        {
          if nRemainingValue > nValue && n < mapOfDenomsHeld[denom] {
            OneMore(n, nValue);
            n := n + 1;
            nRemainingValue := nRemainingValue - nValue;
            AmountUsed := AmountUsed + nValue;
          }
          again := nRemainingValue > nValue && n < mapOfDenomsHeld[denom];
        }
      }
      TakenIs(s - 1, h[denom], Value(denom), n);
      TakenAtIs(r, h, denom);
      ChosenNext(mapOfDenomsUsed, r, h, denom + 1, n);
      mapOfDenomsUsed := mapOfDenomsUsed[denom := n];
    }
    ChosenAll(mapOfDenomsUsed, r, h);
    GreedyTotal(r, h);
  }

  lemma CappedAt(h: Counts, limit: Denom, i: nat)
    requires i < DENOMS
    ensures Capped(h, limit)[i] == if i <= limit then h[i] else 0
  {
  }

  lemma FirstOverIs(r: int, used: Counts, h: Counts, i: nat)
    requires i < DENOMS
    ensures FirstOver(r, used, h, i) == if Value(i) > r && used[i] < h[i] then i else FirstOver(r, used, h, i + 1)
  {
    hide Value;
  }

  lemma FillUpIs(target: int, h: Counts, used: Counts)
    ensures target >= Total(used) ==> FillUp(target, h, used) == FirstOver(target - Total(used), used, h, 0)
    ensures target < Total(used) ==> FillUp(target, h, used) == if used[0] < h[0] then 0 else DENOMS
  {
    hide FirstOver, Total;
  }

  /** Adds the smallest coin left that is worth more than what remains: one at most. */
  method GoOver(nValueTarget: int, mapOfDenomsHeld: Counts, below: Counts, amount: nat)
    returns (mapOfDenomsUsed: Counts, AmountUsed: nat)
    requires amount == Total(below)
    ensures var d := FillUp(nValueTarget, mapOfDenomsHeld, below);
      mapOfDenomsUsed == if d == DENOMS then below else below[d := below[d] + 1]
    ensures AmountUsed == Total(mapOfDenomsUsed)
  {
    hide *;
    mapOfDenomsUsed, AmountUsed := below, amount;
    var nRemainingValue, denom := nValueTarget - amount, 0;
    ghost var d := FillUp(nValueTarget, mapOfDenomsHeld, below);
    FillUpIs(nValueTarget, mapOfDenomsHeld, below);
    while denom < DENOMS
      invariant 0 <= denom <= DENOMS && mapOfDenomsUsed == below && AmountUsed == amount
      invariant nRemainingValue == nValueTarget - amount && (denom > 0 ==> nRemainingValue >= 0)
      invariant nRemainingValue >= 0 ==> d == FirstOver(nRemainingValue, below, mapOfDenomsHeld, denom)
    {
      FirstOverIs(nRemainingValue, below, mapOfDenomsHeld, denom);
      var nValue := Value(denom);
      if nValue > nRemainingValue && mapOfDenomsUsed[denom] < mapOfDenomsHeld[denom] {
        TotalOfOneMore(below, denom);
        mapOfDenomsUsed := mapOfDenomsUsed[denom := mapOfDenomsUsed[denom] + 1];
        nRemainingValue := nRemainingValue - nValue;
        AmountUsed := AmountUsed + nValue;
      }
      if nRemainingValue < 0 {
        break;
      }
      denom := denom + 1;
    }
  }

  /** Removes coins that would come back as change. */
  method RemoveOverlap(used: Counts, change: Counts, amount: nat) returns (mapOfDenomsUsed: Counts, AmountUsed: nat)
    requires amount == Total(used)
    ensures mapOfDenomsUsed == Trimmed(used, change) && AmountUsed == Total(mapOfDenomsUsed)
  {
    hide Value, Worth;
    mapOfDenomsUsed, AmountUsed := used, amount;
    var mapAltChange, denom := change, 0;
    while denom < DENOMS
      invariant 0 <= denom <= DENOMS && AmountUsed == Total(mapOfDenomsUsed)
      invariant forall i :: 0 <= i < DENOMS ==>
        mapOfDenomsUsed[i] == if i < denom then used[i] - Min(used[i], change[i]) else used[i]
      invariant forall i :: denom <= i < DENOMS ==> mapAltChange[i] == change[i]
    {
      ghost var before := mapOfDenomsUsed;
      var again := true;
      while again
        invariant mapOfDenomsUsed[denom] <= used[denom] && mapOfDenomsUsed == before[denom := mapOfDenomsUsed[denom]]
        invariant mapAltChange[denom] + used[denom] == change[denom] + mapOfDenomsUsed[denom]
        invariant forall i :: denom < i < DENOMS ==> mapAltChange[i] == change[i]
        invariant AmountUsed == Total(mapOfDenomsUsed)
        invariant !again ==> mapAltChange[denom] == 0 || mapOfDenomsUsed[denom] == 0
        decreases mapOfDenomsUsed[denom], again
      {
        if mapAltChange[denom] != 0 && mapOfDenomsUsed[denom] != 0 {
          TotalOfOneLess(mapOfDenomsUsed, denom);
          mapOfDenomsUsed := mapOfDenomsUsed[denom := mapOfDenomsUsed[denom] - 1];
          mapAltChange := mapAltChange[denom := mapAltChange[denom] - 1];
          AmountUsed := AmountUsed - Value(denom);
        }
        again := mapAltChange[denom] != 0 && mapOfDenomsUsed[denom] != 0;
      }
      denom := denom + 1;
    }
  }

  lemma TotalOfOneLess(c: Counts, d: nat)
    requires d < DENOMS && c[d] > 0
    ensures Total(c[d := c[d] - 1]) == Total(c) - Value(d)
  {
    WorthOfUpdate(c, d, c[d] - 1, DENOMS);
  }

  /** Takes the largest coins until the target is covered. */
  method CoverTarget(nValueTarget: int, mapOfDenomsHeld: Counts)
    returns (mapOfDenomsUsed: Counts, AmountUsed: nat, nCoinCount: nat)
    ensures mapOfDenomsUsed == Over(nValueTarget, mapOfDenomsHeld)
    ensures AmountUsed == Total(mapOfDenomsUsed) && nCoinCount == Count(mapOfDenomsUsed)
  {
    hide Value, Covering, OverRest, Worth, Size, CoveringAt;
    ghost var r, h := nValueTarget, mapOfDenomsHeld;
    mapOfDenomsUsed, AmountUsed, nCoinCount := NONE, 0, 0;
    var nRemainingValue, denom := nValueTarget, DENOMS;
    NothingBelow(NONE, DENOMS);
    OverStart(r, h);
    while denom > 0
      invariant 0 <= denom <= DENOMS && nRemainingValue == OverRest(r, h, denom)
      invariant AmountUsed == Total(mapOfDenomsUsed) && nCoinCount == Count(mapOfDenomsUsed)
      invariant forall i :: 0 <= i < DENOMS ==> mapOfDenomsUsed[i] == if i < denom then 0 else CoveringAt(r, h, i)
    {
      denom := denom - 1;
      var n;
      ghost var before := mapOfDenomsUsed;
      n, nRemainingValue := TakeWhilePositive(nRemainingValue, mapOfDenomsHeld[denom], Value(denom));
      OverStep(r, h, denom);
      WorthOfUpdate(mapOfDenomsUsed, denom, n, DENOMS);
      mapOfDenomsUsed := mapOfDenomsUsed[denom := n];
      AmountUsed := AmountUsed + n * Value(denom);
      nCoinCount := nCoinCount + n;
      if nRemainingValue < 0 {
        OverEnds(r, h, denom);
        break;
      }
    }
    assert mapOfDenomsUsed == Over(r, h);
  }

  lemma OverStart(r: int, h: Counts)
    ensures OverRest(r, h, DENOMS) == r
  {
  }

  lemma OverStep(r: int, h: Counts, i: nat)
    requires i < DENOMS
    ensures CoveringAt(r, h, i) == Covering(OverRest(r, h, i + 1), h[i], Value(i))
    ensures OverRest(r, h, i) == OverRest(r, h, i + 1) - CoveringAt(r, h, i) * Value(i)
  {
    hide Value, Covering;
  }

  /** Once the target is exceeded, nothing more is taken. */
  lemma {:induction false} OverEnds(r: int, h: Counts, i: nat)
    requires i <= DENOMS && OverRest(r, h, i) < 0
    ensures forall j :: 0 <= j < i ==> CoveringAt(r, h, j) == 0
  {
    hide Value;
    if i > 0 { OverEnds(r, h, i - 1); }
  }

  lemma CoveringFrom(r: int, have: nat, v: nat, n: nat)
    requires v > 0 && n <= have
    requires n > 0 ==> r - n * v + v > 0
    requires n < have ==> r - n * v <= 0
    ensures n == Covering(r, have, v)
  {
    CoveringIs(r, have, v);
    var c := Covering(r, have, v);
    hide Covering;
    MulLeIf(n + 1, c, v);
    MulLeIf(c + 1, n, v);
    OneMore(n, v);
    OneMore(c, v);
  }

  /** Takes coins of one denomination while something remains. */
  method TakeWhilePositive(remaining: int, held: nat, nValue: nat) returns (n: nat, nRemainingValue: int)
    requires nValue > 0
    ensures n == Covering(remaining, held, nValue) && nRemainingValue == remaining - n * nValue
  {
    n, nRemainingValue := 0, remaining;
    var again := true;
    while again
      invariant n <= held && nRemainingValue == remaining - n * nValue && (n > 0 ==> nRemainingValue + nValue > 0)
      invariant !again ==> nRemainingValue <= 0 || n == held
      invariant again ==> n == 0 || n < held
      decreases held - n, again
    {
      if held != 0 && nRemainingValue > 0 {
        OneMore(n, nValue);
        n := n + 1;
        nRemainingValue := nRemainingValue - nValue;
      }
      again := nRemainingValue > 0 && n < held;
    }
    CoveringFrom(remaining, held, nValue, n);
  }

  /** The smallest denomination held that exceeds the target on its own. */
  method FindMinOver(nValueTarget: int, mapOfDenomsHeld: Counts) returns (minDenomOverTarget: Denom)
    ensures minDenomOverTarget == ERROR <==> FirstOver(nValueTarget, NONE, mapOfDenomsHeld, 0) == DENOMS
    ensures minDenomOverTarget != ERROR ==> minDenomOverTarget == FirstOver(nValueTarget, NONE, mapOfDenomsHeld, 0)
  {
    hide Value;
    minDenomOverTarget := ERROR;
    var denom := 0;
    while denom < DENOMS
      invariant 0 <= denom <= DENOMS && minDenomOverTarget == ERROR
      invariant FirstOver(nValueTarget, NONE, mapOfDenomsHeld, 0) == FirstOver(nValueTarget, NONE, mapOfDenomsHeld, denom)
    {
      if nValueTarget < Value(denom) && mapOfDenomsHeld[denom] != 0 {
        minDenomOverTarget := denom;
        break;
      }
      denom := denom + 1;
    }
  }

  lemma CalculatedByOne(maxSpends: int, minimize: bool, target: int, h: Counts, d: nat)
    requires d == FirstOver(target, NONE, h, 0) < DENOMS
    ensures var n := Count(Change(Value(d) - target));
      var alt := Minimized(maxSpends, n, HighestBelow(h, d), target, h, NONE[d := 1]);
      Calculated(maxSpends, minimize, target, h) == if minimize && alt.0 < n then alt else (n, NONE[d := 1])
  {
    hide Value, Change, Minimized, FirstOver;
  }

  lemma CalculatedByMany(maxSpends: int, minimize: bool, target: int, h: Counts)
    requires FirstOver(target, NONE, h, 0) == DENOMS
    ensures var o := Over(target, h);
      var n := Count(Change(Total(o) - target));
      var alt := Minimized(maxSpends, n, HighestBelow(h, DENOMS), target, h, o);
      Calculated(maxSpends, minimize, target, h) == if !minimize && Count(o) < Count(alt.1) then (n, o) else alt
  {
    hide Over, Change, Minimized, FirstOver;
  }

  /** The alternative's coins: the fewest held that are worth the amount of `AlternativeIs` exactly. */
  ghost predicate IsAlternative(alt: Counts, target: int, h: Counts, limit: Denom)
  {
    && Below(alt, h) && Total(alt) == AltAmount(target, h, limit)
    && forall c: Counts :: Below(c, h) && Total(c) == Total(alt) ==> Count(alt) <= Count(c)
  }

  /** The smallest denomination held that exceeds the target alone. */
  ghost predicate IsFirstOver(d: nat, target: int, h: Counts)
  {
    d < DENOMS && h[d] > 0 && Value(d) > target && forall i :: 0 <= i < d ==> h[i] == 0 || Value(i) <= target
  }

  /** The largest denomination held below the `k`-th, or -1 if none is. */
  ghost predicate IsHighestBelow(limit: Denom, h: Counts, k: nat)
    requires k <= DENOMS
  {
    limit < k && (limit >= 0 ==> h[limit] > 0) && forall i :: limit < i < k ==> h[i] == 0
  }

  /**
   * What is chosen: a single coin that exceeds the target, the smallest there is, or else the largest coins that cover
   * it. When change is to be minimized, and for the largest coins whenever it takes no more coins, the alternative is
   * chosen instead if it has fewer coins of change and stays within the limit.
   */
  lemma CalculatedOutcome(maxSpends: int, minimize: bool, target: int, h: Counts)
    returns (first: Counts, alt: Counts, limit: Denom)
    ensures IsAlternative(alt, target, h, limit)
    ensures if exists d: nat :: IsFirstOver(d, target, h)
      then exists d: nat :: IsFirstOver(d, target, h) && first == NONE[d := 1] && IsHighestBelow(limit, h, d)
      else IsHighestBelow(limit, h, DENOMS) && first == Over(target, h)
    ensures var n, m := ChangeCount(Total(first), target), ChangeCount(Total(alt), target);
      Calculated(maxSpends, minimize, target, h) ==
        if m < n && Count(alt) <= maxSpends
           && (minimize || (Count(alt) <= Count(first) && !exists d: nat :: IsFirstOver(d, target, h)))
        then (m, alt) else (n, first)
  {
    hide *;
    var d := FirstOver(target, NONE, h, 0);
    FirstOverFound(target, h);
    if d < DENOMS {
      first, limit := NONE[d := 1], HighestBelow(h, d);
      TotalOfOne(d);
      OneIs(d);
      CalculatedByOne(maxSpends, minimize, target, h, d);
      HighestIs(h, d);
    } else {
      first, limit := Over(target, h), HighestBelow(h, DENOMS);
      CalculatedByMany(maxSpends, minimize, target, h);
      HighestIs(h, DENOMS);
    }
    alt := Greedy(AltAmount(target, h, limit), h);
    AltIsPayable(target, h, limit);
    AlternativeIsFewest(target, h, limit);
    MinimizedIs(maxSpends, ChangeCount(Total(first), target), limit, target, h, first);
    ChangeCountIs(Total(first), target);
  }

  /** The largest coins that cover a target, coin by coin: all that there are until it is covered, and none too many. */
  lemma OverIsLargest(target: int, h: Counts, i: nat)
    requires i < DENOMS
    ensures var over := Over(target, h); var rest := target - (Total(over) - Worth(over, i));
      && Below(over, h)
      && (over[i] < h[i] ==> rest <= 0)
      && (over[i] > 0 ==> rest + Value(i) > 0)
  {
    hide Value, Covering, Worth, OverRest;
    OverAddsUp(target, h, i);
    OverStep(target, h, i);
    CoveringIs(OverRest(target, h, i + 1), h[i], Value(i));
  }

  lemma FirstOverFound(target: int, h: Counts)
    ensures var d := FirstOver(target, NONE, h, 0);
      d <= DENOMS && (d < DENOMS ==> IsFirstOver(d, target, h))
      && (d == DENOMS ==> forall i: nat :: !IsFirstOver(i, target, h))
  {
    hide Value, FirstOver;
  }

  lemma OneIs(d: nat)
    requires d < DENOMS
    ensures One(d) == NONE[d := 1]
  {
  }

  lemma HighestIs(h: Counts, k: nat)
    requires k <= DENOMS
    ensures IsHighestBelow(HighestBelow(h, k), h, k)
  {
  }

  lemma ChangeCountIs(amount: int, target: int)
    ensures ChangeCount(amount, target) == Count(Change(amount - target))
  {
    hide Count, Change;
  }

  lemma AlternativeIsFewest(target: int, h: Counts, limit: Denom)
    ensures IsAlternative(Greedy(AltAmount(target, h, limit), h), target, h, limit)
  {
    hide Greedy, Total, Count, AltAmount;
    var amount := AltAmount(target, h, limit);
    AltIsPayable(target, h, limit);
    assert Below(Greedy(amount, h), h);
    forall c: Counts | Below(c, h) && Total(c) == amount ensures Count(Greedy(amount, h)) <= Count(c) {
      GreedyIsFewest(amount, h, c);
    }
  }

  lemma MinimizedIs(maxSpends: int, n: int, limit: Denom, target: int, h: Counts, used: Counts)
    ensures var alt := Greedy(AltAmount(target, h, limit), h);
      var m := ChangeCount(Total(alt), target);
      Minimized(maxSpends, n, limit, target, h, used) == if m < n && Count(alt) <= maxSpends then (m, alt) else (n, used)
  {
    hide Greedy, AltAmount, Count, Total, ChangeCount;
    AltIsPayable(target, h, limit);
  }

  /** Chooses coins that exceed the target; returns the number of coins of change. */
  method CalculateChange(nMaxNumberOfSpends: int, fMinimizeChange: bool, nValueTarget: int, mapOfDenomsHeld: Counts)
    returns (nChangeCount: int, mapOfDenomsUsed: Counts)
    ensures (nChangeCount, mapOfDenomsUsed)
         == Calculated(nMaxNumberOfSpends, fMinimizeChange, nValueTarget, mapOfDenomsHeld)
    ensures 0 < nValueTarget <= Total(mapOfDenomsHeld) ==>
      Sound(nValueTarget, mapOfDenomsHeld, nChangeCount, mapOfDenomsUsed)
  {
    hide *;
    if 0 < nValueTarget <= Total(mapOfDenomsHeld) {
      CalculatedIsSound(nMaxNumberOfSpends, fMinimizeChange, nValueTarget, mapOfDenomsHeld);
    }
    var minDenomOverTarget := FindMinOver(nValueTarget, mapOfDenomsHeld);
    mapOfDenomsUsed := NONE;
    if minDenomOverTarget != ERROR {
      CalculatedByOne(nMaxNumberOfSpends, fMinimizeChange, nValueTarget, mapOfDenomsHeld, minDenomOverTarget);
      mapOfDenomsUsed := mapOfDenomsUsed[minDenomOverTarget := 1];
      var nChangeAmount := Value(minDenomOverTarget) - nValueTarget;
      var mapChange := GetChange(nChangeAmount);
      nChangeCount := GetNumberOfCoinsUsed(mapChange);
      if fMinimizeChange {
        var nextToMaxDenom := GetNextLowerDenomHeld(minDenomOverTarget, mapOfDenomsHeld);
        var newChangeCount;
        newChangeCount, mapOfDenomsUsed := MinimizeChange(nMaxNumberOfSpends, nChangeCount, nextToMaxDenom, nValueTarget,
                                                          mapOfDenomsHeld, mapOfDenomsUsed);
        if newChangeCount < nChangeCount {
          return newChangeCount, mapOfDenomsUsed;
        }
        mapOfDenomsUsed := NONE[minDenomOverTarget := 1];
      }
    } else {
      CalculatedByMany(nMaxNumberOfSpends, fMinimizeChange, nValueTarget, mapOfDenomsHeld);
      var AmountUsed, nCoinCount;
      mapOfDenomsUsed, AmountUsed, nCoinCount := CoverTarget(nValueTarget, mapOfDenomsHeld);
      var mapChange := GetChange(AmountUsed - nValueTarget);
      var nMaxChangeCount := GetNumberOfCoinsUsed(mapChange);
      var maxDenomHeld := GetMaxDenomHeld(mapOfDenomsHeld);
      var mapOfMinDenomsUsed;
      nChangeCount, mapOfMinDenomsUsed := MinimizeChange(nMaxNumberOfSpends, nMaxChangeCount, maxDenomHeld, nValueTarget,
                                                         mapOfDenomsHeld, mapOfDenomsUsed);
      var nNumSpends := GetNumberOfCoinsUsed(mapOfMinDenomsUsed);
      if !fMinimizeChange && nCoinCount < nNumSpends {
        return nMaxChangeCount, mapOfDenomsUsed;
      }
      mapOfDenomsUsed := mapOfMinDenomsUsed;
    }
  }
}
