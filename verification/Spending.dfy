/**
 * The coin selection methods of the zerocoin wallet that pay an amount exactly: each loop is proved to
 * compute the greedy choice of module Denominations, and the mints it stands for are collected.
 */
module Spending {
  import opened Denominations

  /** A mint in the wallet; `hash` tells mints apart. */
  datatype Mint = Mint(hash: nat, denom: Denom, isUsed: bool)

  predicate Fits(m: Mint, i: nat)
  {
    !m.isUsed && m.denom == i
  }

  /** The number of unused mints of the `i`-th denomination. */
  function Available(mints: seq<Mint>, i: nat): nat
  {
    if mints == [] then 0
    else
      var last := |mints| - 1;
      Available(mints[..last], i) + if Fits(mints[last], i) then 1 else 0
  }

  function Histogram(mints: seq<Mint>): Counts
  {
    seq(DENOMS, i requires 0 <= i < DENOMS => Available(mints, i))
  }

  lemma AvailableNext(mints: seq<Mint>, p: nat, i: nat)
    requires p < |mints|
    ensures Available(mints[..p + 1], i) == Available(mints[..p], i) + if Fits(mints[p], i) then 1 else 0
  {
    assert mints[..p + 1][..p] == mints[..p];
  }

  lemma {:induction false} AvailableGrows(mints: seq<Mint>, p: nat, i: nat)
    requires p <= |mints|
    ensures Available(mints[..p], i) <= Available(mints, i)
    decreases |mints| - p
  {
    if p < |mints| {
      AvailableNext(mints, p, i);
      AvailableGrows(mints, p + 1, i);
    } else {
      assert mints[..p] == mints;
    }
  }

  // ----- exact payments

  /** The first coins of the greedy choice, from the largest denomination down to the `k`-th, and no others. */
  ghost predicate ChosenFrom(used: Counts, r: int, h: Counts, k: nat)
    requires k <= DENOMS
  {
    && (forall i :: 0 <= i < k ==> used[i] == 0)
    && (forall i :: k <= i < DENOMS ==> used[i] == TakenAt(r, h, i))
  }

  lemma ChosenNext(used: Counts, r: int, h: Counts, k: nat, t: nat)
    requires 0 < k <= DENOMS && ChosenFrom(used, r, h, k) && t == TakenAt(r, h, k - 1)
    ensures ChosenFrom(used[k - 1 := t], r, h, k - 1)
    ensures Rest(r, h, k - 1) == Rest(r, h, k) - t * Value(k - 1)
  {
    hide Value, Taken;
  }

  lemma ChosenAll(used: Counts, r: int, h: Counts)
    requires ChosenFrom(used, r, h, 0)
    ensures used == Greedy(r, h)
  {
    hide TakenAt;
  }

  /** Pays an amount with the coins held, if they can pay it exactly. */
  method GetSpendCoins(nValueTarget: int, mapOfDenomsHeld: Counts) returns (mapUsed: Counts)
    ensures mapUsed == Greedy(nValueTarget, mapOfDenomsHeld)
  {
    hide Value, TakenAt, Rest, Greedy;
    mapUsed := NONE;
    var nRemainingValue, coin := nValueTarget, DENOMS;
    RestStart(nValueTarget, mapOfDenomsHeld);
    while coin > 0
      invariant 0 <= coin <= DENOMS && nRemainingValue == Rest(nValueTarget, mapOfDenomsHeld, coin)
      invariant ChosenFrom(mapUsed, nValueTarget, mapOfDenomsHeld, coin)
    {
      coin := coin - 1;
      var nValue, n, again := Value(coin), 0, true;
      ghost var s := nRemainingValue;
      while again
        invariant n <= mapOfDenomsHeld[coin] && nRemainingValue == s - n * nValue && (n > 0 ==> nRemainingValue >= 0)
        invariant !again ==> nRemainingValue < nValue || n == mapOfDenomsHeld[coin]
        decreases mapOfDenomsHeld[coin] - n, again
      {
        if nRemainingValue >= nValue && n < mapOfDenomsHeld[coin] {
          OneMore(n, nValue);
          n := n + 1;
          nRemainingValue := nRemainingValue - nValue;
        }
        again := nRemainingValue >= nValue && n < mapOfDenomsHeld[coin];
      }
      TakenIs(s, mapOfDenomsHeld[coin], nValue, n);
      TakenAtIs(nValueTarget, mapOfDenomsHeld, coin);
      ChosenNext(mapUsed, nValueTarget, mapOfDenomsHeld, coin + 1, n);
      mapUsed := mapUsed[coin := n];
    }
    ChosenAll(mapUsed, nValueTarget, mapOfDenomsHeld);
  }

  lemma OneMore(n: nat, v: nat)
    ensures (n + 1) * v == n * v + v
  {
  }

  lemma RestStart(r: int, h: Counts)
    ensures Rest(r, h, DENOMS) == r
  {
  }

  lemma TakenAtIs(r: int, h: Counts, i: nat)
    requires i < DENOMS
    ensures TakenAt(r, h, i) == Taken(Rest(r, h, i + 1), h[i], Value(i))
  {
  }

  /** Makes change, with coins without limit. */
  method GetChange(nValueTarget: int) returns (mapChange: Counts)
    ensures mapChange == Change(nValueTarget)
  {
    hide Value, TakenAt, Rest, Greedy;
    ghost var plenty: Counts := if nValueTarget < 0 then NONE else seq(DENOMS, i => nValueTarget);
    mapChange := NONE;
    var nRemainingValue, coin := nValueTarget, DENOMS;
    RestStart(nValueTarget, plenty);
    while coin > 0
      invariant 0 <= coin <= DENOMS && nRemainingValue == Rest(nValueTarget, plenty, coin)
      invariant ChosenFrom(mapChange, nValueTarget, plenty, coin)
    {
      RestBounds(nValueTarget, plenty, coin);
      coin := coin - 1;
      var nValue, n, again := Value(coin), 0, true;
      ghost var s := nRemainingValue;
      while again
        invariant nRemainingValue == s - n * nValue && (n > 0 ==> nRemainingValue >= 0)
        invariant !again ==> nRemainingValue < nValue
        decreases nRemainingValue, again
      {
        if nRemainingValue >= nValue {
          OneMore(n, nValue);
          n := n + 1;
          nRemainingValue := nRemainingValue - nValue;
        }
        again := nRemainingValue >= nValue;
      }
      MulAtLeast(n, nValue);
      TakenIs(s, plenty[coin], nValue, n);
      TakenAtIs(nValueTarget, plenty, coin);
      ChosenNext(mapChange, nValueTarget, plenty, coin + 1, n);
      mapChange := mapChange[coin := n];
    }
    ChosenAll(mapChange, nValueTarget, plenty);
  }

  /** Tries to pay exactly with the unused mints in the list. */
  method GetIdealSpends(nValueTarget: int, listMints: seq<Mint>) returns (exact: bool, mapOfDenomsUsed: Counts)
    ensures mapOfDenomsUsed == Greedy(nValueTarget, Histogram(listMints))
    ensures exact <==> Payable(Histogram(listMints), nValueTarget)
  {
    hide Value, TakenAt, Rest, Greedy, Fits, Payable;
    ghost var h := Histogram(listMints);
    mapOfDenomsUsed := NONE;
    var nRemainingValue, coin := nValueTarget, DENOMS;
    RestStart(nValueTarget, h);
    while coin > 0
      invariant 0 <= coin <= DENOMS && nRemainingValue == Rest(nValueTarget, h, coin)
      invariant ChosenFrom(mapOfDenomsUsed, nValueTarget, h, coin)
    {
      coin := coin - 1;
      var n;
      ghost var s := nRemainingValue;
      n, nRemainingValue := SpendFromList(nRemainingValue, listMints, coin);
      TakenAtIs(nValueTarget, h, coin);
      ChosenNext(mapOfDenomsUsed, nValueTarget, h, coin + 1, n);
      mapOfDenomsUsed := mapOfDenomsUsed[coin := n];
    }
    ChosenAll(mapOfDenomsUsed, nValueTarget, h);
    GreedyTotal(nValueTarget, h);
    GreedyIsComplete(nValueTarget, h);
    exact := nRemainingValue == 0;
  }

  /** One pass over the list, taking unused mints of one denomination while they fit. */
  method SpendFromList(remaining: int, listMints: seq<Mint>, coin: nat) returns (n: nat, nRemainingValue: int)
    requires coin < DENOMS
    ensures n == Taken(remaining, Available(listMints, coin), Value(coin))
    ensures nRemainingValue == remaining - n * Value(coin)
  {
    hide Value, Fits, Taken;
    n, nRemainingValue := 0, remaining;
    var p := 0;
    while p < |listMints|
      invariant 0 <= p <= |listMints|
      invariant n <= Available(listMints[..p], coin)
      invariant n < Available(listMints[..p], coin) ==> nRemainingValue < Value(coin)
      invariant nRemainingValue == remaining - n * Value(coin) && (n > 0 ==> nRemainingValue >= 0)
    {
      var mint := listMints[p];
      AvailableNext(listMints, p, coin);
      NeverFits(mint, coin);
      AvailableGrows(listMints, p + 1, coin);
      p := p + 1;
      if mint.isUsed {
        continue;
      }
      if nRemainingValue >= Value(coin) && coin == mint.denom {
        OneMore(n, Value(coin));
        n := n + 1;
        nRemainingValue := nRemainingValue - Value(coin);
      }
      if nRemainingValue < Value(coin) {
        break;
      }
    }
    assert listMints[..|listMints|] == listMints;
    TakenIs(remaining, Available(listMints, coin), Value(coin), n);
  }

  lemma NeverFits(m: Mint, i: nat)
    ensures Fits(m, i) <==> !m.isUsed && m.denom == i
  {
  }

  // ----- collecting the mints

  /** The first `n` unused mints of the `i`-th denomination. */
  function Picked(mints: seq<Mint>, i: nat, n: nat): (s: seq<Mint>)
    ensures |s| <= n
  {
    if mints == [] then []
    else
      var last := |mints| - 1;
      var p := Picked(mints[..last], i, n);
      if Fits(mints[last], i) && |p| < n then p + [mints[last]] else p
  }

  lemma PickedNext(mints: seq<Mint>, p: nat, i: nat, n: nat)
    requires p < |mints|
    ensures Picked(mints[..p + 1], i, n) ==
      Picked(mints[..p], i, n) + if Fits(mints[p], i) && |Picked(mints[..p], i, n)| < n then [mints[p]] else []
  {
    hide Fits;
    assert mints[..p + 1][..p] == mints[..p];
  }

  /** The mints for denominations `k` and up, largest first. */
  function Selection(mints: seq<Mint>, used: Counts, k: nat): seq<Mint>
    requires k <= DENOMS
    decreases DENOMS - k
  {
    if k == DENOMS then [] else Selection(mints, used, k + 1) + Picked(mints, k, used[k])
  }

  lemma {:induction false} PickedIsFirst(mints: seq<Mint>, i: nat, n: nat)
    ensures |Picked(mints, i, n)| == if Available(mints, i) < n then Available(mints, i) else n
    ensures multiset(Picked(mints, i, n)) <= multiset(mints)
    ensures forall m :: m in Picked(mints, i, n) ==> Fits(m, i)
  {
    hide Fits;
    if mints != [] {
      var last := |mints| - 1;
      PickedIsFirst(mints[..last], i, n);
      assert mints == mints[..last] + [mints[last]];
    }
  }

  lemma {:induction false} SelectionIsFromList(mints: seq<Mint>, used: Counts, k: nat)
    requires k <= DENOMS && Below(used, Histogram(mints))
    ensures |Selection(mints, used, k)| == Count(used) - Size(used, k)
    ensures forall m :: m in Selection(mints, used, k) ==> !m.isUsed && k <= m.denom
    ensures multiset(Selection(mints, used, k)) <= multiset(mints)
    decreases DENOMS - k
  {
    if k < DENOMS {
      SelectionIsFromList(mints, used, k + 1);
      PickedIsFirst(mints, k, used[k]);
      var a, b := Selection(mints, used, k + 1), Picked(mints, k, used[k]);
      hide *;
      KindsAreDisjoint(a, b, mints, k);
    }
  }

  /** Mints of higher denominations and mints of one denomination: no mint is counted twice. */
  lemma KindsAreDisjoint(a: seq<Mint>, b: seq<Mint>, mints: seq<Mint>, k: nat)
    requires multiset(a) <= multiset(mints) && multiset(b) <= multiset(mints)
    requires (forall m :: m in a ==> m.denom > k) && (forall m :: m in b ==> m.denom == k)
    ensures multiset(a + b) <= multiset(mints)
  {
    assert multiset(a + b) == multiset(a) + multiset(b);
    forall m ensures multiset(a + b)[m] <= multiset(mints)[m] {
      assert m in multiset(a) ==> m in a;
      assert m in multiset(b) ==> m in b;
    }
  }

  /** What a list of mints is worth; a mint of no denomination is worth nothing. */
  function MintsWorth(mints: seq<Mint>): nat
  {
    if mints == [] then 0
    else
      var last := |mints| - 1;
      MintsWorth(mints[..last]) + if mints[last].denom == ERROR then 0 else Value(mints[last].denom)
  }

  lemma {:induction false} WorthOfConcat(a: seq<Mint>, b: seq<Mint>)
    ensures MintsWorth(a + b) == MintsWorth(a) + MintsWorth(b)
  {
    hide Value;
    if b == [] {
      assert a + b == a;
    } else {
      var last := |b| - 1;
      WorthOfConcat(a, b[..last]);
      assert (a + b)[..|a + b| - 1] == a + b[..last];
    }
  }

  lemma {:induction false} WorthOfSame(mints: seq<Mint>, i: nat)
    requires i < DENOMS && forall m :: m in mints ==> m.denom == i
    ensures MintsWorth(mints) == |mints| * Value(i)
  {
    hide Value;
    if mints != [] {
      var last := |mints| - 1;
      forall m | m in mints[..last] ensures m in mints {}
      WorthOfSame(mints[..last], i);
      assert mints[last] in mints;
      OneMore(last, Value(i));
    }
  }

  lemma {:induction false} SelectionWorth(mints: seq<Mint>, used: Counts, k: nat)
    requires k <= DENOMS && Below(used, Histogram(mints))
    ensures MintsWorth(Selection(mints, used, k)) == Total(used) - Worth(used, k)
    decreases DENOMS - k
  {
    hide Value, Picked;
    if k < DENOMS {
      SelectionWorth(mints, used, k + 1);
      PickedIsFirst(mints, k, used[k]);
      WorthOfSame(Picked(mints, k, used[k]), k);
      WorthOfConcat(Selection(mints, used, k + 1), Picked(mints, k, used[k]));
    }
  }

  /** One pass over the list that collects unused mints of one denomination while any are wanted. */
  method PickMints(listMints: seq<Mint>, coin: nat, wanted: nat) returns (picked: seq<Mint>, left: nat)
    requires coin < DENOMS
    ensures picked == Picked(listMints, coin, wanted) && left == wanted - |picked|
    ensures wanted <= Available(listMints, coin) ==> left == 0
  {
    hide Fits;
    picked, left := [], wanted;
    var p := 0;
    while p < |listMints|
      invariant 0 <= p <= |listMints|
      invariant picked == Picked(listMints[..p], coin, wanted) && left == wanted - |picked|
    {
      var mint := listMints[p];
      PickedNext(listMints, p, coin, wanted);
      NeverFits(mint, coin);
      p := p + 1;
      if mint.isUsed {
        continue;
      }
      if coin == mint.denom && left != 0 {
        picked := picked + [mint];
        left := left - 1;
      }
    }
    assert listMints[..|listMints|] == listMints;
    PickedIsFirst(listMints, coin, wanted);
  }

  /** Collects the mints for a choice of coins; the counts given are used up. One pass per denomination is enough. */
  method GetSpends(listMints: seq<Mint>, mapOfDenomsUsed: Counts)
    returns (vSelectedMints: seq<Mint>, nCoinsSpentValue: nat, left: Counts)
    requires Below(mapOfDenomsUsed, Histogram(listMints))
    ensures vSelectedMints == Selection(listMints, mapOfDenomsUsed, 0)
    ensures nCoinsSpentValue == MintsWorth(vSelectedMints) == Total(mapOfDenomsUsed) && left == NONE
  {
    hide Value, Fits, Picked;
    vSelectedMints, nCoinsSpentValue, left := [], 0, mapOfDenomsUsed;
    var coin := DENOMS;
    while coin > 0
      invariant 0 <= coin <= DENOMS
      invariant vSelectedMints == Selection(listMints, mapOfDenomsUsed, coin)
      invariant nCoinsSpentValue == Total(mapOfDenomsUsed) - Worth(mapOfDenomsUsed, coin)
      invariant forall i :: 0 <= i < DENOMS ==> left[i] == if i < coin then mapOfDenomsUsed[i] else 0
    {
      coin := coin - 1;
      ghost var n, before, selected, spent := left[coin], left, vSelectedMints, nCoinsSpentValue;
      var again := true;
      while again
        invariant again ==> left == before && vSelectedMints == selected && nCoinsSpentValue == spent
        invariant !again ==> left == before[coin := 0]
        invariant !again ==> vSelectedMints == selected + Picked(listMints, coin, n)
        invariant !again ==> nCoinsSpentValue == spent + n * Value(coin)
        decreases again
      {
        var picked, wanted := PickMints(listMints, coin, left[coin]);
        vSelectedMints := vSelectedMints + picked;
        nCoinsSpentValue := nCoinsSpentValue + |picked| * Value(coin);
        left := left[coin := wanted];
        again := left[coin] != 0;
      }
    }
    SelectionWorth(listMints, mapOfDenomsUsed, 0);
  }
}
