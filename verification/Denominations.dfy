/**
 * Paying an amount with coins of the eight zerocoin denominations. Each denomination divides the next, which
 * is why taking the largest coins first finds an exact payment whenever there is one, with the fewest coins.
 */
module Denominations {

  const COIN: nat := 100000000
  const DENOMS: nat := 8

  /** The number of coins of each denomination, smallest denomination first. */
  type Counts = c: seq<nat> | |c| == DENOMS witness [0, 0, 0, 0, 0, 0, 0, 0]

  const NONE: Counts := [0, 0, 0, 0, 0, 0, 0, 0]

  /** The place of a denomination in the list; -1 is the error value, which compares below all of them. */
  type Denom = i: int | -1 <= i < DENOMS

  const ERROR: Denom := -1

  /** The amount a coin of the `i`-th denomination is worth. */
  function Value(i: nat): (v: nat)
    requires i < DENOMS
    ensures v >= COIN
  {
    COIN * match i
      case 0 => 1
      case 1 => 5
      case 2 => 10
      case 3 => 50
      case 4 => 100
      case 5 => 500
      case 6 => 1000
      case _ => 5000
  }

  /** How many coins of the next lower denomination make one of the `i`-th. */
  function Ratio(i: nat): nat
    requires 0 < i < DENOMS
  {
    if i == 2 || i == 4 || i == 6 then 2 else 5
  }

  lemma ValuesDivide(i: nat)
    requires 0 < i < DENOMS
    ensures Value(i) == Ratio(i) * Value(i - 1)
    ensures Value(i - 1) < Value(i)
  {
  }

  lemma {:induction false} ValuesGrow(i: nat, j: nat)
    requires i <= j < DENOMS
    ensures Value(i) <= Value(j)
    ensures i < j ==> Value(i) < Value(j)
  {
    if i < j {
      ValuesGrow(i, j - 1);
      ValuesDivide(j);
    }
  }

  /** What the coins of the lowest `k` denominations are worth. */
  function Worth(c: Counts, k: nat): nat
    requires k <= DENOMS
  {
    if k == 0 then 0 else Worth(c, k - 1) + c[k - 1] * Value(k - 1)
  }

  /** The number of coins of the lowest `k` denominations. */
  function Size(c: Counts, k: nat): nat
    requires k <= DENOMS
  {
    if k == 0 then 0 else Size(c, k - 1) + c[k - 1]
  }

  function Total(c: Counts): nat
  {
    Worth(c, DENOMS)
  }

  function Count(c: Counts): nat
  {
    Size(c, DENOMS)
  }

  predicate Below(c: Counts, h: Counts)
  {
    forall i :: 0 <= i < DENOMS ==> c[i] <= h[i]
  }

  /** The amount can be paid exactly with some of the coins of `h`. */
  ghost predicate Payable(h: Counts, amount: int)
  {
    exists c: Counts :: Below(c, h) && Total(c) == amount
  }

  // ----- taking the largest coins first

  /** The number of coins of value `v` that go into `r`, at most `have`. */
  function Taken(r: int, have: nat, v: nat): (t: nat)
    requires v > 0
    ensures t <= have
  {
    if r < v then 0 else if have < r / v then have else r / v
  }

  /** What is left of `r` after the coins of denominations `i` and up have been taken, largest first. */
  function Rest(r: int, h: Counts, i: nat): int
    requires i <= DENOMS
    decreases DENOMS - i
  {
    if i == DENOMS then r
    else
      var s := Rest(r, h, i + 1);
      s - Taken(s, h[i], Value(i)) * Value(i)
  }

  function TakenAt(r: int, h: Counts, i: nat): (t: nat)
    requires i < DENOMS
    ensures t <= h[i]
  {
    Taken(Rest(r, h, i + 1), h[i], Value(i))
  }

  function Greedy(r: int, h: Counts): (c: Counts)
    ensures Below(c, h)
  {
    seq(DENOMS, i requires 0 <= i < DENOMS => TakenAt(r, h, i))
  }

  lemma TakenFits(r: int, have: nat, v: nat)
    requires v > 0
    ensures r >= 0 ==> Taken(r, have, v) * v <= r
    ensures r < 0 ==> Taken(r, have, v) == 0
    ensures Taken(r, have, v) < have ==> r - Taken(r, have, v) * v < v
  {
    if r >= v {
      var q := r / v;
      var t := Taken(r, have, v);
      assert r == q * v + r % v;
      MulLe(t, q, v);
    }
  }

  lemma MulLe(a: nat, b: nat, v: nat)
    requires a <= b
    ensures a * v <= b * v
  {
  }

  lemma MulCancel(a: int, b: int, v: nat)
    requires a * v <= b * v && v > 0
    ensures a <= b
  {
    if a > b {
      assert a * v == b * v + (a - b) * v;
      MulLe(1, a - b, v);
      assert false;
    }
  }

  /** No smaller number of coins leaves less than one coin's worth, and no larger number fits. */
  lemma TakenIs(r: int, have: nat, v: nat, t: nat)
    requires v > 0 && t <= have
    requires t > 0 ==> t * v <= r
    requires t < have ==> r - t * v < v
    ensures t == Taken(r, have, v)
  {
    var u := Taken(r, have, v);
    TakenFits(r, have, v);
    if t < u {
      assert u * v <= r;
      assert (t + 1) * v == t * v + v;
      MulLe(t + 1, u, v);
      assert false;
    } else if u < t {
      assert t * v <= r;
      assert (u + 1) * v == u * v + v;
      MulLe(u + 1, t, v);
      assert false;
    }
  }

  lemma {:induction false} RestBounds(r: int, h: Counts, i: nat)
    requires i <= DENOMS
    ensures r >= 0 ==> 0 <= Rest(r, h, i) <= r
    ensures r < 0 ==> Rest(r, h, i) == r
    decreases DENOMS - i
  {
    hide Value, Taken;
    if i < DENOMS {
      RestBounds(r, h, i + 1);
      TakenFits(Rest(r, h, i + 1), h[i], Value(i));
      assert Taken(Rest(r, h, i + 1), h[i], Value(i)) * Value(i) >= 0;
    }
  }

  /** What has been taken and what is left make up the amount. */
  lemma {:induction false} GreedyAddsUp(r: int, h: Counts, i: nat)
    requires i <= DENOMS
    ensures Total(Greedy(r, h)) - Worth(Greedy(r, h), i) == r - Rest(r, h, i)
    decreases DENOMS - i
  {
    hide Value, Taken;
    if i < DENOMS {
      GreedyAddsUp(r, h, i + 1);
    }
  }

  lemma GreedyTotal(r: int, h: Counts)
    ensures Total(Greedy(r, h)) == r - Rest(r, h, 0)
  {
    GreedyAddsUp(r, h, 0);
  }

  // ----- exchanging coins

  function Minus(c: Counts, d: Counts): Counts
    requires Below(d, c)
  {
    seq(DENOMS, i requires 0 <= i < DENOMS => c[i] - d[i])
  }

  lemma {:induction false} MinusWorth(c: Counts, d: Counts, k: nat)
    requires Below(d, c) && k <= DENOMS
    ensures Worth(Minus(c, d), k) == Worth(c, k) - Worth(d, k)
    ensures Size(Minus(c, d), k) == Size(c, k) - Size(d, k)
  {
    hide Value;
    if k > 0 {
      MinusWorth(c, d, k - 1);
      assert (c[k - 1] - d[k - 1]) * Value(k - 1) == c[k - 1] * Value(k - 1) - d[k - 1] * Value(k - 1);
    }
  }

  lemma {:induction false} WorthOf(c: Counts, d: Counts, k: nat)
    requires k <= DENOMS && forall i :: 0 <= i < k ==> c[i] == d[i]
    ensures Worth(c, k) == Worth(d, k) && Size(c, k) == Size(d, k)
  {
    hide Value;
    if k > 0 { WorthOf(c, d, k - 1); }
  }

  /** Coins below the `k`-th denomination are worth no more than as many coins of it. */
  lemma {:induction false} WorthAtMost(c: Counts, k: nat)
    requires k < DENOMS
    ensures Worth(c, k) <= Size(c, k) * Value(k)
  {
    hide Value, Ratio;
    if k > 0 {
      WorthAtMost(c, k - 1);
      ValuesDivide(k);
      MulUp(Size(c, k - 1), c[k - 1], Value(k - 1), Value(k));
    }
  }

  lemma MulUp(a: nat, b: nat, u: nat, v: nat)
    requires u <= v
    ensures a * u + b * u <= (a + b) * v
  {
    assert (a + b) * v == (a + b) * u + (a + b) * (v - u);
  }

  /** Coins below the `k`-th denomination that are worth at least `m` coins of it include coins worth exactly that. */
  lemma {:induction false} Fill(c: Counts, k: nat, m: nat) returns (f: Counts)
    requires k < DENOMS && m * Value(k) <= Worth(c, k)
    ensures Below(f, c) && Worth(f, k) == m * Value(k)
    ensures Size(f, k) >= m
  {
    if k == 0 {
      f := NONE;
      assert m == 0 by { MulCancel(m, 0, Value(0)); }
    } else {
      hide Value, Ratio;
      ValuesDivide(k);
      var n, v := m * Ratio(k), Value(k - 1);
      MulAssoc(m, Ratio(k), v);
      assert n * v == m * Value(k);
      if n <= c[k - 1] {
        f := NONE[k - 1 := n];
        NothingBelow(f, k - 1);
      } else {
        MulSplit(n, c[k - 1], v);
        f := Fill(c, k - 1, n - c[k - 1]);
        var g := f[k - 1 := c[k - 1]];
        WorthOf(f, g, k - 1);
        f := g;
      }
      assert Worth(f, k) == m * Value(k);
      WorthAtMost(f, k);
      MulCancel(m, Size(f, k), Value(k));
    }
  }

  lemma MulAssoc(a: nat, b: nat, c: nat)
    ensures a * (b * c) == a * b * c
  {
  }

  lemma MulSplit(n: nat, a: nat, v: nat)
    requires a <= n
    ensures (n - a) * v == n * v - a * v
  {
  }

  lemma {:induction false} NothingBelow(f: Counts, k: nat)
    requires k <= DENOMS && forall i :: 0 <= i < k ==> f[i] == 0
    ensures Worth(f, k) == 0 && Size(f, k) == 0
  {
    hide Value;
    if k > 0 { NothingBelow(f, k - 1); }
  }

  // ----- the greedy choice is complete and the cheapest

  /** From any payment of what is left, up to a fraction `e` of a coin, the greedy choice goes on to pay as much,
      with no more coins. */
  lemma {:induction false} GreedyReaches(r: int, h: Counts, i: nat, c: Counts, e: nat)
    requires i <= DENOMS && Below(c, h) && Worth(c, i) + e == Rest(r, h, i) && e < COIN
    ensures Rest(r, h, 0) == e && Size(Greedy(r, h), i) <= Size(c, i)
  {
    hide Value, Taken;
    if i > 0 {
      var j, s := i - 1, Rest(r, h, i);
      var v, t := Value(j), TakenAt(r, h, j);
      TakenFits(s, h[j], v);
      AtLeast(s, h[j], v, c[j]);
      MulSplit(t, c[j], v);
      WholeFits(c, j, t - c[j], e);
      var f := Fill(c, j, t - c[j]);
      MinusWorth(c, f, j);
      GreedyReaches(r, h, j, Minus(c, f), e);
    }
  }

  /** Whole coins that fit into an amount fit into its whole-coin part. */
  lemma WholeFits(c: Counts, j: nat, m: nat, e: nat)
    requires j < DENOMS && m * Value(j) <= Worth(c, j) + e && e < COIN
    ensures m * Value(j) <= Worth(c, j)
  {
    WorthIsWhole(c, j);
    WholeValue(m, j);
    hide Value, Worth;
    var x, y := m * Value(j), Worth(c, j);
    assert x == COIN * (x / COIN) && y == COIN * (y / COIN);
  }

  lemma WholeValue(m: nat, j: nat)
    requires j < DENOMS
    ensures (m * Value(j)) % COIN == 0
  {
    MulWhole(m, Value(j) / COIN);
  }

  lemma {:induction false} WorthIsWhole(c: Counts, k: nat)
    requires k <= DENOMS
    ensures Worth(c, k) % COIN == 0
  {
    hide Value;
    if k > 0 {
      WorthIsWhole(c, k - 1);
      WholeValue(c[k - 1], k - 1);
    }
  }

  lemma MulWhole(a: nat, m: nat)
    ensures (a * (COIN * m)) % COIN == 0
  {
    assert a * (COIN * m) == COIN * (a * m);
  }

  lemma AtLeast(s: int, have: nat, v: nat, n: nat)
    requires v > 0 && n <= have && n * v <= s
    ensures n <= Taken(s, have, v)
  {
    hide Taken;
    TakenFits(s, have, v);
    var t := Taken(s, have, v);
    if t < n {
      assert (t + 1) * v == t * v + v;
      MulLe(t + 1, n, v);
      assert false;
    }
  }

  /** The greedy choice pays an amount exactly if and only if the coins can pay it at all. */
  lemma GreedyIsComplete(r: int, h: Counts)
    ensures Total(Greedy(r, h)) == r <==> Payable(h, r)
  {
    GreedyTotal(r, h);
    if Payable(h, r) {
      var c: Counts :| Below(c, h) && Total(c) == r;
      GreedyReaches(r, h, DENOMS, c, 0);
    }
  }

  /** No exact payment uses fewer coins than the greedy choice. */
  lemma GreedyIsFewest(r: int, h: Counts, c: Counts)
    requires Below(c, h) && Total(c) == r
    ensures Total(Greedy(r, h)) == r && Count(Greedy(r, h)) <= Count(c)
  {
    GreedyTotal(r, h);
    GreedyReaches(r, h, DENOMS, c, 0);
  }

  // ----- change

  /** What change is made of: coins without limit, none of which can exceed `r` in number. */
  function Change(r: int): Counts
  {
    Greedy(r, if r < 0 then NONE else seq(DENOMS, i => r))
  }

  lemma {:induction false} CoinsAtMostWorth(c: Counts, k: nat)
    requires k <= DENOMS
    ensures forall i :: 0 <= i < k ==> c[i] <= Worth(c, k)
  {
    hide Value;
    if k > 0 {
      CoinsAtMostWorth(c, k - 1);
      MulAtLeast(c[k - 1], Value(k - 1));
    }
  }

  lemma MulAtLeast(a: nat, v: nat)
    requires v > 0
    ensures a <= a * v
  {
  }

  /** Change pays the whole-coin part of any amount exactly, with the fewest coins possible. */
  lemma ChangePays(r: nat)
    ensures Total(Change(r)) == r - r % COIN
    ensures forall c: Counts :: Total(c) == r - r % COIN ==> Count(Change(r)) <= Count(c)
  {
    var h: Counts := seq(DENOMS, i => r);
    var w, one := r - r % COIN, NONE[0 := r / COIN];
    OneKind(r / COIN);
    GreedyTotal(r, h);
    GreedyReaches(r, h, DENOMS, one, r % COIN);
    forall c: Counts | Total(c) == w ensures Count(Change(r)) <= Count(c) {
      CoinsAtMostWorth(c, DENOMS);
      GreedyReaches(r, h, DENOMS, c, r % COIN);
    }
  }

  lemma OneKind(n: nat)
    ensures Total(NONE[0 := n]) == n * COIN
  {
    var c: Counts := NONE[0 := n];
    assert Worth(c, 1) == n * Value(0);
    WorthAbove(c, 1, DENOMS);
  }

  lemma {:induction false} WorthAbove(c: Counts, k: nat, m: nat)
    requires k <= m <= DENOMS && forall i :: k <= i < m ==> c[i] == 0
    ensures Worth(c, m) == Worth(c, k) && Size(c, m) == Size(c, k)
  {
    hide Value;
    if k < m { WorthAbove(c, k, m - 1); }
  }

  /** What coins are worth, by their denominations. */
  lemma WorthIs(c: Counts)
    ensures Total(c)
      == (c[0] + 5 * c[1] + 10 * c[2] + 50 * c[3] + 100 * c[4] + 500 * c[5] + 1000 * c[6] + 5000 * c[7]) * COIN
    ensures Count(c) == c[0] + c[1] + c[2] + c[3] + c[4] + c[5] + c[6] + c[7]
  {
    assert Worth(c, 0) == 0 && Size(c, 0) == 0;
    assert Worth(c, 1) == c[0] * COIN && Size(c, 1) == c[0];
    assert Worth(c, 2) == Worth(c, 1) + 5 * c[1] * COIN && Size(c, 2) == Size(c, 1) + c[1];
    assert Worth(c, 3) == Worth(c, 2) + 10 * c[2] * COIN && Size(c, 3) == Size(c, 2) + c[2];
    assert Worth(c, 4) == Worth(c, 3) + 50 * c[3] * COIN && Size(c, 4) == Size(c, 3) + c[3];
    assert Worth(c, 5) == Worth(c, 4) + 100 * c[4] * COIN && Size(c, 5) == Size(c, 4) + c[4];
    assert Worth(c, 6) == Worth(c, 5) + 500 * c[5] * COIN && Size(c, 6) == Size(c, 5) + c[5];
    assert Worth(c, 7) == Worth(c, 6) + 1000 * c[6] * COIN && Size(c, 7) == Size(c, 6) + c[6];
  }
}
