/**
 * The stake modifier: 64 rounds that each pick one recent block by a hash, every pick contributing its entropy bit.
 */
module StakeModifier {
  import opened Radix
  import opened Wrappers

  /** A block of the index, with its ancestors. */
  datatype Block = Block(hash: nat, nHeight: nat, nTime: nat, isProofOfStake: bool, entropyBit: nat,
                         nStakeModifier: nat, generated: bool, pprev: Option<Block>)

  /** What the computation depends on: an arbitrary selection hash of a proof hash and the last modifier, and the
      height from which proof-of-stake blocks are hashed by their own hash. */
  datatype Env = Env(hash: (nat, nat) -> nat, upgradeHeight: nat)

  const MODIFIER_INTERVAL: nat := 60
  const MODIFIER_INTERVAL_RATIO: nat := 3
  const ROUNDS: nat := 64

  /** Heights count up from a block without parent; an entropy bit is a bit. */
  predicate Linked(b: Block)
  {
    b.entropyBit < 2 && match b.pprev case None => b.nHeight == 0 case Some(p) => b.nHeight == p.nHeight + 1 && Linked(p)
  }

  /** The block and its ancestors are in the block index under their hashes. */
  predicate Indexed(b: Block, index: map<nat, Block>)
  {
    b.hash in index && index[b.hash] == b && (b.pprev.Some? ==> Indexed(b.pprev.value, index))
  }

  // ----- the last modifier

  /** The nearest block, from `b` back, that a modifier was generated at. */
  function LastGenerated(b: Block): Option<Block>
  {
    if b.generated then Some(b) else if b.pprev.None? then None else LastGenerated(b.pprev.value)
  }

  method GetLastStakeModifier(b: Block) returns (r: Option<(nat, nat)>)
    ensures r == match LastGenerated(b) case None => None case Some(g) => Some((g.nStakeModifier, g.nTime))
  {
    var pindex := b;
    while pindex.pprev.Some? && !pindex.generated
      invariant LastGenerated(pindex) == LastGenerated(b)
      decreases pindex
    {
      pindex := pindex.pprev.value;
    }
    r := if !pindex.generated then None else Some((pindex.nStakeModifier, pindex.nTime));
  }

  /** The block `n` steps back. */
  function Back(b: Block, n: nat): Option<Block>
  {
    if n == 0 then Some(b) else if b.pprev.None? then None else Back(b.pprev.value, n - 1)
  }

  /** The last modifier is that of the first block, going back, that one was generated at; there may be none. */
  lemma {:induction false} LastGeneratedIs(b: Block) returns (n: nat)
    ensures forall m: nat :: m < n && Back(b, m).Some? ==> !Back(b, m).value.generated
    ensures match LastGenerated(b) case None => Back(b, n) == None case Some(g) => Back(b, n) == Some(g) && g.generated
  {
    if b.generated {
      n := 0;
    } else if b.pprev.None? {
      n := 1;
    } else {
      n := LastGeneratedIs(b.pprev.value);
      n := n + 1;
      assert forall m: nat :: 0 < m < n ==> Back(b, m) == Back(b.pprev.value, m - 1);
    }
  }

  // ----- the selection interval

  /** The length of section `n` of the selection interval; later ones are longer. */
  function Section(n: nat): nat
    requires n < ROUNDS
  {
    MODIFIER_INTERVAL * 63 / (63 + (63 - n) * (MODIFIER_INTERVAL_RATIO - 1))
  }

  /** The length of the first `n` sections together. */
  function Sections(n: nat): nat
    requires n <= ROUNDS
  {
    if n == 0 then 0 else Sections(n - 1) + Section(n - 1)
  }

  method GetStakeModifierSelectionInterval() returns (interval: nat)
    ensures interval == Sections(ROUNDS)
  {
    interval := 0;
    for n := 0 to ROUNDS
      invariant interval == Sections(n)
    {
      interval := interval + Section(n);
    }
  }

  /** The last section is three times as long as the first, and none is shorter than the one before. */
  lemma SectionsGrow(m: nat, n: nat)
    requires m <= n < ROUNDS
    ensures Section(m) <= Section(n) && Section(ROUNDS - 1) == MODIFIER_INTERVAL_RATIO * Section(0) == MODIFIER_INTERVAL
  {
    DividesLess(MODIFIER_INTERVAL * 63, 63 + (63 - m) * 2, 63 + (63 - n) * 2);
  }

  /** The length of a section is 3780 seconds divided by 189 less twice its number, rounded down. */
  lemma SectionIs(n: nat)
    requires n < ROUNDS
    ensures Section(n) * (189 - 2 * n) <= 3780 < (Section(n) + 1) * (189 - 2 * n)
  {
    QuotientIs(3780, 189 - 2 * n);
    assert 63 + (63 - n) * (MODIFIER_INTERVAL_RATIO - 1) == 189 - 2 * n;
  }

  lemma DividesLess(x: nat, d: nat, e: nat)
    requires 0 < e <= d
    ensures x / d <= x / e
  {
    QuotientIs(x, d);
    MulMonotone(x / d, x / d, e, d);
    QuotientIs(x, e);
    AtLeastOneMore(x / e, x / d, e);
  }

  lemma QuotientIs(x: nat, d: nat)
    requires d > 0
    ensures x / d * d <= x < x / d * d + d
  {
  }

  lemma AtLeastOneMore(q: nat, p: nat, e: nat)
    ensures q < p ==> q * e + e <= p * e
  {
    if q < p { MulMonotone(q + 1, p, e, e); }
  }

  /** The interval ends at the last multiple of the modifier interval before a block's time. */
  function Start(b: Block): int
  {
    AlignedTime(b) - Sections(ROUNDS)
  }

  function AlignedTime(b: Block): nat
  {
    b.nTime / MODIFIER_INTERVAL * MODIFIER_INTERVAL
  }

  // ----- candidates

  /** A candidate is known by its time and hash, in the order in which they are sorted. */
  type Candidate = (nat, nat)

  predicate Before(a: Candidate, b: Candidate)
  {
    a.0 < b.0 || (a.0 == b.0 && a.1 <= b.1)
  }

  predicate IsSorted(v: seq<Candidate>)
  {
    forall i, j :: 0 <= i < j < |v| ==> Before(v[i], v[j])
  }

  /** The blocks from `b` back to the first one before `start`. */
  function Recent(b: Block, start: int): seq<Candidate>
  {
    if b.nTime < start then []
    else [(b.nTime, b.hash)] + (if b.pprev.None? then [] else Recent(b.pprev.value, start))
  }

  /** The candidates refer to different indexed blocks, each under its own time. */
  ghost predicate Sound(v: seq<Candidate>, index: map<nat, Block>)
  {
    && (forall i :: 0 <= i < |v| ==>
          v[i].1 in index && index[v[i].1].hash == v[i].1 && index[v[i].1].nTime == v[i].0 && index[v[i].1].entropyBit < 2)
    && (forall i, j :: 0 <= i < j < |v| ==> v[i].1 != v[j].1)
  }

  lemma {:induction false} RecentIsSound(b: Block, start: int, index: map<nat, Block>)
    requires Linked(b) && Indexed(b, index)
    ensures Sound(Recent(b, start), index)
    ensures forall i :: 0 <= i < |Recent(b, start)| ==> index[Recent(b, start)[i].1].nHeight <= b.nHeight
  {
    if b.nTime >= start && b.pprev.Some? {
      RecentIsSound(b.pprev.value, start, index);
      var rest, all := Recent(b.pprev.value, start), Recent(b, start);
      assert forall i :: 0 < i < |all| ==> all[i] == rest[i - 1];
    }
  }

  /** Going back from `b`, exactly the blocks before the first one that is earlier than `start` are candidates. */
  lemma {:induction false} RecentAre(b: Block, start: int)
    ensures var v := Recent(b, start);
      && (forall i: nat :: i < |v| ==>
            Back(b, i).Some? && Back(b, i).value.nTime >= start
            && v[i] == (Back(b, i).value.nTime, Back(b, i).value.hash))
      && (Back(b, |v|).Some? ==> Back(b, |v|).value.nTime < start)
  {
    if b.nTime >= start && b.pprev.Some? {
      RecentAre(b.pprev.value, start);
      var rest, v := Recent(b.pprev.value, start), Recent(b, start);
      forall i: nat | i < |v| ensures i > 0 ==> v[i] == rest[i - 1] && Back(b, i) == Back(b.pprev.value, i - 1) {}
    }
  }

  function Insert(c: Candidate, v: seq<Candidate>): (r: seq<Candidate>)
    ensures multiset(r) == multiset(v) + multiset{c} && |r| == |v| + 1
  {
    if v == [] || Before(c, v[0]) then [c] + v
    else
      assert v == [v[0]] + v[1..];
      [v[0]] + Insert(c, v[1..])
  }

  function Sort(v: seq<Candidate>): (r: seq<Candidate>)
    ensures multiset(r) == multiset(v) && |r| == |v|
  {
    if v == [] then []
    else
      assert v == [v[0]] + v[1..];
      Insert(v[0], Sort(v[1..]))
  }

  lemma {:induction false} InsertSorted(c: Candidate, v: seq<Candidate>)
    requires IsSorted(v)
    ensures IsSorted(Insert(c, v))
  {
    if v != [] && !Before(c, v[0]) {
      InsertSorted(c, v[1..]);
      var r := Insert(c, v[1..]);
      forall j | 0 <= j < |r| ensures Before(v[0], r[j]) {
        assert r[j] in multiset(r);
        if r[j] != c { assert r[j] in v[1..]; }
      }
    }
  }

  lemma {:induction false} SortSorts(v: seq<Candidate>)
    ensures IsSorted(Sort(v))
  {
    if v != [] {
      SortSorts(v[1..]);
      InsertSorted(v[0], Sort(v[1..]));
    }
  }

  lemma PermutationIsSound(v: seq<Candidate>, w: seq<Candidate>, index: map<nat, Block>)
    requires Sound(v, index) && multiset(v) == multiset(w)
    ensures Sound(w, index)
  {
    forall i | 0 <= i < |w| ensures w[i] in v { assert w[i] in multiset(v); }
    forall i, j | 0 <= i < j < |w| ensures w[i].1 != w[j].1 {
      if w[i].1 == w[j].1 {
        var a: nat :| a < |v| && v[a] == w[i];
        var b: nat :| b < |v| && v[b] == w[j];
        assert a == b;
        TwiceIn(w, i, j);
        OnceIn(v, a);
      }
    }
  }

  lemma TwiceIn<T>(w: seq<T>, i: nat, j: nat)
    requires i < j < |w| && w[i] == w[j]
    ensures multiset(w)[w[i]] >= 2
  {
    assert w == w[..i] + [w[i]] + w[i + 1..j] + [w[j]] + w[j + 1..];
  }

  lemma OnceIn(v: seq<Candidate>, a: nat)
    requires a < |v| && forall i, j :: 0 <= i < j < |v| ==> v[i].1 != v[j].1
    ensures multiset(v)[v[a]] == 1
  {
    assert v == v[..a] + [v[a]] + v[a + 1..];
    assert v[a] !in v[..a] && v[a] !in v[a + 1..];
  }

  /** What sorting the recent blocks gives: sorted, and still different indexed blocks. */
  lemma SortedCandidates(b: Block, index: map<nat, Block>)
    requires Linked(b) && Indexed(b, index)
    ensures IsSorted(Sort(Recent(b, Start(b)))) && Sound(Sort(Recent(b, Start(b))), index)
  {
    hide *;
    var v := Recent(b, Start(b));
    RecentIsSound(b, Start(b), index);
    SortSorts(v);
    PermutationIsSound(v, Sort(v), index);
  }

  // ----- one round

  /** By which hash a block is selected; a proof-of-stake block's is 2^32 times smaller. */
  function SelectionHash(b: Block, e: Env, isV2: bool, modifier: nat): nat
  {
    var h := e.hash(if isV2 || !b.isProofOfStake then b.hash else 0, modifier);
    if b.isProofOfStake then h / 0x1_0000_0000 else h
  }

  /** Proof-of-work blocks are selected by their hash; for proof-of-stake ones, 2^32 such hashes are as good. */
  lemma SelectionIs(b: Block, e: Env, isV2: bool, modifier: nat)
    ensures var s := SelectionHash(b, e, isV2, modifier);
      && (!b.isProofOfStake ==> s == e.hash(b.hash, modifier))
      && (b.isProofOfStake ==>
            var h := e.hash(if isV2 then b.hash else 0, modifier); s * 0x1_0000_0000 <= h < (s + 1) * 0x1_0000_0000)
  {
    QuotientIs(e.hash(if isV2 then b.hash else 0, modifier), 0x1_0000_0000);
  }

  ghost predicate IsFree(v: seq<Candidate>, i: nat, taken: set<nat>)
  {
    i < |v| && v[i].1 !in taken
  }

  /** A candidate not yet taken and not after `stop`. */
  ghost predicate IsEligible(v: seq<Candidate>, i: nat, taken: set<nat>, stop: int)
  {
    IsFree(v, i, taken) && v[i].0 <= stop
  }

  /** The hash of each candidate. */
  type Order = nat -> nat

  /** Candidate `i` has the smallest hash of the eligible ones, and is the first that has it. */
  ghost predicate IsBest(v: seq<Candidate>, i: nat, taken: set<nat>, stop: int, order: Order)
  {
    && IsEligible(v, i, taken, stop)
    && (forall j: nat :: IsEligible(v, j, taken, stop) ==> order(v[i].1) <= order(v[j].1))
    && (forall j: nat :: IsEligible(v, j, taken, stop) && j < i ==> order(v[i].1) < order(v[j].1))
  }

  /** Candidate `i` is the best of the eligible ones or, when there are none, the first that is not taken. */
  ghost predicate IsPick(v: seq<Candidate>, i: nat, taken: set<nat>, stop: int, order: Order)
  {
    if exists j: nat :: IsEligible(v, j, taken, stop) then IsBest(v, i, taken, stop, order)
    else IsFree(v, i, taken) && forall j: nat :: IsFree(v, j, taken) ==> i <= j
  }

  lemma PickIsUnique(v: seq<Candidate>, i: nat, j: nat, taken: set<nat>, stop: int, order: Order)
    requires IsPick(v, i, taken, stop, order) && IsPick(v, j, taken, stop, order)
    ensures i == j
  {
  }

  function IsV2(v: seq<Candidate>, index: map<nat, Block>, e: Env): bool
  {
    v != [] && v[0].1 in index && index[v[0].1].nHeight >= e.upgradeHeight
  }

  function OrderOf(v: seq<Candidate>, index: map<nat, Block>, e: Env, modifier: nat): Order
  {
    h => if h in index then SelectionHash(index[h], e, IsV2(v, index, e), modifier) else 0
  }

  /** Picks a candidate that is not taken; there is none if all are, or if one that is looked at is not indexed. */
  method SelectBlockFromCandidates(v: seq<Candidate>, taken: set<nat>, stop: int, modifier: nat,
                                   index: map<nat, Block>, e: Env) returns (pick: Option<nat>)
    requires IsSorted(v)
    ensures pick.Some? ==> IsPick(v, pick.value, taken, stop, OrderOf(v, index, e, modifier))
    ensures Sound(v, index) ==> (pick.Some? <==> exists i: nat :: IsFree(v, i, taken))
  {
    hide IsSorted, IsPick, BestSoFar;
    ghost var order := OrderOf(v, index, e, modifier);
    var fModifierV2, fFirstRun := false, true;
    var hashBest := 0;
    pick := None;
    var k := 0;
    while k < |v|
      invariant 0 <= k <= |v|
      invariant fFirstRun <==> k == 0
      invariant k > 0 ==> fModifierV2 == IsV2(v, index, e)
      invariant pick.None? ==> forall j :: 0 <= j < k ==> v[j].1 in taken
      invariant pick.Some? ==> IsFree(v, pick.value, taken) && hashBest == order(v[pick.value].1)
      invariant pick.Some? ==> BestSoFar(v, pick.value, k, taken, stop, order)
    {
      if v[k].1 !in index {
        return None;
      }
      var b := index[v[k].1];
      if pick.Some? && v[k].0 > stop {
        StopHere(v, pick.value, k, taken, stop, order);
        return;
      }
      if fFirstRun {
        fModifierV2 := b.nHeight >= e.upgradeHeight;
        fFirstRun := false;
      }
      if v[k].1 !in taken {
        var hashProof := if fModifierV2 then b.hash else if b.isProofOfStake then 0 else b.hash;
        var hashSelection := e.hash(hashProof, modifier);
        if b.isProofOfStake {
          hashSelection := hashSelection / 0x1_0000_0000;
        }
        assert hashSelection == order(v[k].1);
        if pick.None? { FirstBest(v, k, taken, stop, order); } else { NextBest(v, pick.value, k, taken, stop, order); }
        if pick.Some? && hashSelection < hashBest {
          hashBest := hashSelection;
          pick := Some(k);
        } else if pick.None? {
          hashBest := hashSelection;
          pick := Some(k);
        }
      } else if pick.Some? {
        TakenNext(v, pick.value, k, taken, stop, order);
      }
      k := k + 1;
    }
    if pick.Some? { StopHere(v, pick.value, k, taken, stop, order); }
  }

  /** The best of the first `k` candidates. Beyond `stop`, only the first one that is not taken is looked at. */
  ghost predicate BestSoFar(v: seq<Candidate>, i: nat, k: nat, taken: set<nat>, stop: int, order: Order)
    requires k <= |v|
  {
    && i < k && IsFree(v, i, taken)
    && (forall j: nat :: IsFree(v, j, taken) && j < k ==> order(v[i].1) <= order(v[j].1))
    && (forall j: nat :: IsFree(v, j, taken) && j < i ==> order(v[i].1) < order(v[j].1))
    && (v[i].0 > stop ==> forall j: nat :: IsFree(v, j, taken) ==> i <= j)
    && (forall j: nat :: IsFree(v, j, taken) && j < k && j != i ==> v[j].0 <= stop)
  }

  lemma FirstBest(v: seq<Candidate>, k: nat, taken: set<nat>, stop: int, order: Order)
    requires k < |v| && v[k].1 !in taken && forall j :: 0 <= j < k ==> v[j].1 in taken
    ensures BestSoFar(v, k, k + 1, taken, stop, order)
  {
  }

  lemma NextBest(v: seq<Candidate>, i: nat, k: nat, taken: set<nat>, stop: int, order: Order)
    requires k < |v| && v[k].1 !in taken && v[k].0 <= stop && IsSorted(v) && BestSoFar(v, i, k, taken, stop, order)
    ensures BestSoFar(v, if order(v[k].1) < order(v[i].1) then k else i, k + 1, taken, stop, order)
  {
    assert Before(v[i], v[k]);
  }

  lemma TakenNext(v: seq<Candidate>, i: nat, k: nat, taken: set<nat>, stop: int, order: Order)
    requires k < |v| && v[k].1 in taken && BestSoFar(v, i, k, taken, stop, order)
    ensures BestSoFar(v, i, k + 1, taken, stop, order)
  {
  }

  lemma StopHere(v: seq<Candidate>, i: nat, k: nat, taken: set<nat>, stop: int, order: Order)
    requires IsSorted(v) && k <= |v| && BestSoFar(v, i, k, taken, stop, order)
    requires k < |v| ==> v[k].0 > stop
    ensures IsPick(v, i, taken, stop, order)
  {
    if k < |v| { LateFrom(v, k, stop); }
    if v[i].0 > stop {
      LateFrom(v, i, stop);
      assert forall j: nat :: !IsEligible(v, j, taken, stop);
    } else {
      assert IsEligible(v, i, taken, stop);
    }
  }

  lemma LateFrom(v: seq<Candidate>, k: nat, stop: int)
    requires IsSorted(v) && k < |v| && v[k].0 > stop
    ensures forall j: nat :: k <= j < |v| ==> v[j].0 > stop
  {
  }

  // ----- all rounds

  /** The hashes of the candidates picked so far. */
  function Taken(v: seq<Candidate>, picks: seq<nat>): set<nat>
    requires forall i :: 0 <= i < |picks| ==> picks[i] < |v|
  {
    set i | 0 <= i < |picks| :: v[picks[i]].1
  }

  /** Each round picks from what the rounds before have left, with a stop one section later. */
  ghost predicate IsRun(v: seq<Candidate>, picks: seq<nat>, start: int, order: Order)
  {
    && |picks| <= ROUNDS
    && (forall i :: 0 <= i < |picks| ==> picks[i] < |v|)
    && (forall r :: 0 <= r < |picks| ==> IsPick(v, picks[r], Taken(v, picks[..r]), start + Sections(r + 1), order))
  }

  ghost predicate AllDifferent(picks: seq<nat>)
  {
    forall i, j :: 0 <= i < j < |picks| ==> picks[i] != picks[j]
  }

  /** No candidate is picked twice. */
  lemma RunIsDistinct(v: seq<Candidate>, picks: seq<nat>, start: int, order: Order)
    requires IsRun(v, picks, start, order)
    ensures AllDifferent(picks)
  {
    forall i, j | 0 <= i < j < |picks| ensures picks[i] != picks[j] {
      assert picks[..j][i] == picks[i];
      assert IsFree(v, picks[j], Taken(v, picks[..j]));
    }
  }

  /** The picks are determined by the candidates, the interval and the hashes. */
  lemma {:induction false} RunIsUnique(v: seq<Candidate>, p: seq<nat>, q: seq<nat>, start: int, order: Order)
    requires IsRun(v, p, start, order) && IsRun(v, q, start, order) && |p| == |q|
    ensures p == q
  {
    hide IsPick, Taken;
    if p != [] {
      var n := |p| - 1;
      forall r | 0 <= r < n ensures p[..n][..r] == p[..r] && q[..n][..r] == q[..r] {}
      RunIsUnique(v, p[..n], q[..n], start, order);
      PickIsUnique(v, p[n], q[n], Taken(v, p[..n]), start + Sections(n + 1), order);
    }
  }

  /** As long as there are more candidates than picks, one is free. */
  lemma SomeFree(v: seq<Candidate>, picks: seq<nat>)
    requires (forall i, j :: 0 <= i < j < |v| ==> v[i].1 != v[j].1)
    requires (forall i :: 0 <= i < |picks| ==> picks[i] < |v|) && |picks| < |v|
    ensures exists i: nat :: IsFree(v, i, Taken(v, picks))
  {
    TakenSize(v, picks, |picks|);
    AllSize(v, |v|);
    NamesAre(v, |v|);
    assert picks[..|picks|] == picks;
    var all := Names(v, |v|);
    if all <= Taken(v, picks) { SubsetSize(all, Taken(v, picks)); }
    var h :| h in all && h !in Taken(v, picks);
    var i :| 0 <= i < |v| && v[i].1 == h;
    assert IsFree(v, i, Taken(v, picks));
  }

  lemma {:induction false} SubsetSize<T>(a: set<T>, b: set<T>)
    requires a <= b
    ensures |a| <= |b|
  {
    if a != {} {
      var x :| x in a;
      SubsetSize(a - {x}, b - {x});
    }
  }

  lemma {:induction false} TakenSize(v: seq<Candidate>, picks: seq<nat>, n: nat)
    requires (forall i :: 0 <= i < |picks| ==> picks[i] < |v|) && n <= |picks|
    ensures |Taken(v, picks[..n])| <= n
  {
    if n > 0 {
      TakenSize(v, picks, n - 1);
      TakenGrows(v, picks, n - 1);
    }
  }

  lemma TakenGrows(v: seq<Candidate>, picks: seq<nat>, n: nat)
    requires (forall i :: 0 <= i < |picks| ==> picks[i] < |v|) && n < |picks|
    ensures Taken(v, picks[..n + 1]) == Taken(v, picks[..n]) + {v[picks[n]].1}
  {
    var p, q := picks[..n], picks[..n + 1];
    assert forall i :: 0 <= i < n ==> p[i] == q[i];
    forall h | h in Taken(v, q) ensures h in Taken(v, p) + {v[picks[n]].1} {
      var i :| 0 <= i < |q| && v[q[i]].1 == h;
      if i < n { assert p[i] == q[i]; }
    }
    forall h | h in Taken(v, p) ensures h in Taken(v, q) {
      var i :| 0 <= i < |p| && v[p[i]].1 == h;
      assert q[i] == p[i];
    }
    assert q[n] == picks[n];
  }

  /** The hashes of the first `n` candidates. */
  function Names(v: seq<Candidate>, n: nat): set<nat>
    requires n <= |v|
  {
    if n == 0 then {} else Names(v, n - 1) + {v[n - 1].1}
  }

  lemma {:induction false} NamesAre(v: seq<Candidate>, n: nat)
    requires n <= |v|
    ensures forall h :: h in Names(v, n) ==> exists i :: 0 <= i < n && v[i].1 == h
    ensures forall i :: 0 <= i < n ==> v[i].1 in Names(v, n)
  {
    if n > 0 { NamesAre(v, n - 1); }
  }

  lemma {:induction false} AllSize(v: seq<Candidate>, n: nat)
    requires (forall i, j :: 0 <= i < j < |v| ==> v[i].1 != v[j].1) && n <= |v|
    ensures |Names(v, n)| == n
  {
    if n > 0 {
      AllSize(v, n - 1);
      NotNamed(v, n - 1);
    }
  }

  lemma NotNamed(v: seq<Candidate>, n: nat)
    requires (forall i, j :: 0 <= i < j < |v| ==> v[i].1 != v[j].1) && n < |v|
    ensures v[n].1 !in Names(v, n)
  {
    hide Names;
    NamesAre(v, n);
  }

  /** Bit `r` of the modifier is the entropy bit of the block picked in round `r`. */
  function ModifierOf(bits: seq<nat>): nat
  {
    if bits == [] then 0
    else ModifierOf(bits[..|bits| - 1]) + bits[|bits| - 1] * Pow(2, |bits| - 1)
  }

  lemma {:induction false} ModifierBound(bits: seq<nat>)
    requires forall i :: 0 <= i < |bits| ==> bits[i] < 2
    ensures ModifierOf(bits) < Pow(2, |bits|)
  {
    if bits != [] {
      ModifierBound(bits[..|bits| - 1]);
      MulMonotone(bits[|bits| - 1], 1, Pow(2, |bits| - 1), Pow(2, |bits| - 1));
    }
  }

  lemma {:induction false} ModifierBits(bits: seq<nat>, r: nat)
    requires (forall i :: 0 <= i < |bits| ==> bits[i] < 2) && r < |bits|
    ensures PowPositive2(r) && ModifierOf(bits) / Pow(2, r) % 2 == bits[r]
  {
    hide Pow;
    var n := |bits| - 1;
    var low, p := ModifierOf(bits[..n]), Pow(2, r);
    PowPositive(2, r);
    if r == n {
      ModifierBound(bits[..n]);
      DivModOf(bits[n], low, p);
    } else {
      ModifierBits(bits[..n], r);
      HigherBit(low, bits[n], n, r);
    }
  }

  /** Adding a bit of weight 2^n does not change the bit of weight 2^r below it. */
  lemma HigherBit(low: nat, bit: nat, n: nat, r: nat)
    requires r < n
    ensures PowPositive2(r) && (low + bit * Pow(2, n)) / Pow(2, r) % 2 == low / Pow(2, r) % 2
  {
    hide Pow;
    PowPositive(2, r);
    PowAdd(2, r + 1, n - r - 1);
    NextPower(r);
    var p, q := Pow(2, r), Pow(2, n - r - 1);
    Reorder(bit, 2 * p, q);
    AddHigh(low, p, bit * q);
  }

  lemma Reorder(a: nat, b: nat, c: nat)
    ensures a * (b * c) == a * c * b
  {
  }

  lemma NextPower(r: nat)
    ensures Pow(2, r + 1) == 2 * Pow(2, r)
  {
  }

  predicate PowPositive2(r: nat)
  {
    Pow(2, r) > 0
  }

  /** Adding a multiple of 2p does not change the bit of weight p. */
  lemma AddHigh(low: nat, p: nat, k: nat)
    requires p > 0
    ensures (low + k * (2 * p)) / p % 2 == low / p % 2
  {
    var q, r := low / p, low % p;
    assert low == q * p + r;
    assert low + k * (2 * p) == (q + 2 * k) * p + r by { assert (q + 2 * k) * p == q * p + k * (2 * p); }
    DivModOf(q + 2 * k, r, p);
    assert (q + 2 * k) % 2 == q % 2;
  }

  function EntropyBits(v: seq<Candidate>, picks: seq<nat>, index: map<nat, Block>): (bits: seq<nat>)
    requires forall i :: 0 <= i < |picks| ==> picks[i] < |v| && v[picks[i]].1 in index
    ensures |bits| == |picks|
  {
    seq(|picks|, i requires 0 <= i < |picks| => index[v[picks[i]].1].entropyBit)
  }

  /** The outcome of computing the modifier after a block. */
  datatype Next = Failed | Kept(modifier: nat) | Generated(modifier: nat)

  function Rounds(n: nat): nat
  {
    if n < ROUNDS then n else ROUNDS
  }

  /** Whether a new modifier is due after `b`, when the last one was generated at the given time. */
  predicate IsDue(b: Block, nModifierTime: nat)
  {
    nModifierTime / MODIFIER_INTERVAL < b.nTime / MODIFIER_INTERVAL
  }

  /** The candidates after `b`, in order. */
  function Candidates(b: Block): seq<Candidate>
  {
    Sort(Recent(b, Start(b)))
  }

  /** The modifier that the rounds after `b` generate: as many bits as there are candidates, at most 64. */
  ghost predicate IsGenerated(b: Block, g: Block, index: map<nat, Block>, e: Env, modifier: nat, picks: seq<nat>)
  {
    var v := Candidates(b);
    && |picks| == Rounds(|v|)
    && (forall i :: 0 <= i < |picks| ==> picks[i] < |v| && v[picks[i]].1 in index)
    && IsRun(v, picks, Start(b), OrderOf(v, index, e, g.nStakeModifier))
    && modifier == ModifierOf(EntropyBits(v, picks, index))
  }

  /** A new modifier is due exactly if a multiple of 60 seconds lies after the last one and not after the block. */
  lemma IsDueIff(b: Block, nModifierTime: nat)
    ensures IsDue(b, nModifierTime) <==> exists k: nat :: nModifierTime < Minutes(k) <= b.nTime
  {
    QuotientIs(b.nTime, MODIFIER_INTERVAL);
    QuotientIs(nModifierTime, MODIFIER_INTERVAL);
    if IsDue(b, nModifierTime) { assert nModifierTime < Minutes(b.nTime / MODIFIER_INTERVAL) <= b.nTime; }
  }

  function Minutes(k: nat): nat
  {
    60 * k
  }

  /**
   * Computes the modifier of the block after `b`. `first` is the modifier given to the block after the genesis
   * block. On blocks that are all indexed it fails only if no modifier was ever generated, and every round picks.
   */
  method ComputeNextStakeModifier(b: Option<Block>, index: map<nat, Block>, e: Env, first: nat)
    returns (r: Next, ghost picks: seq<nat>)
    requires b.Some? ==> Linked(b.value) && Indexed(b.value, index)
    ensures b.None? ==> r == Generated(0)
    ensures b.Some? && b.value.nHeight == 0 ==> r == Generated(first)
    ensures b.Some? && b.value.nHeight > 0 ==>
      match LastGenerated(b.value)
      case None => r == Failed
      case Some(g) =>
        if IsDue(b.value, g.nTime) then r.Generated? && IsGenerated(b.value, g, index, e, r.modifier, picks)
        else r == Kept(g.nStakeModifier)
  {
    hide *;
    picks := [];
    if b.None? {
      return Generated(0), [];
    }
    var prev := b.value;
    if prev.nHeight == 0 {
      return Generated(first), [];
    }
    var last := GetLastStakeModifier(prev);
    if last.None? {
      return Failed, [];
    }
    ghost var g := LastGenerated(prev).value;
    var (nStakeModifier, nModifierTime) := last.value;
    if !IsDue(prev, nModifierTime) {
      return Kept(nStakeModifier), [];
    }
    var nSelectionInterval := GetStakeModifierSelectionInterval();
    var nSelectionIntervalStart := AlignedTime(prev) - nSelectionInterval;
    StartIs(prev);
    var v := CollectCandidates(prev, nSelectionIntervalStart);
    CandidatesAre(prev, index);
    var nNew;
    nNew, picks := RunRounds(v, nSelectionIntervalStart, nStakeModifier, index, e);
    GeneratedIs(prev, g, index, e, nNew, picks);
    r := Generated(nNew);
  }

  lemma StartIs(b: Block)
    ensures Start(b) == AlignedTime(b) - Sections(ROUNDS)
  {
    hide Sections, AlignedTime;
  }

  lemma CandidatesAre(b: Block, index: map<nat, Block>)
    requires Linked(b) && Indexed(b, index)
    ensures Candidates(b) == Sort(Recent(b, Start(b))) && IsSorted(Candidates(b)) && Sound(Candidates(b), index)
  {
    SortedCandidates(b, index);
  }

  lemma GeneratedIs(b: Block, g: Block, index: map<nat, Block>, e: Env, modifier: nat, picks: seq<nat>)
    requires IsModifierOf(Candidates(b), Start(b), g.nStakeModifier, index, e, modifier, picks)
    ensures IsGenerated(b, g, index, e, modifier, picks)
  {
  }

  method CollectCandidates(b: Block, start: int) returns (v: seq<Candidate>)
    ensures v == Sort(Recent(b, start))
  {
    hide Sort, Insert;
    v := [];
    var pindex := Some(b);
    while pindex.Some? && pindex.value.nTime >= start
      invariant v + (if pindex.None? then [] else Recent(pindex.value, start)) == Recent(b, start)
      decreases pindex
    {
      v := v + [(pindex.value.nTime, pindex.value.hash)];
      pindex := pindex.value.pprev;
    }
    assert v == Recent(b, start);
    v := Sort(v);
  }

  ghost predicate IsModifierOf(v: seq<Candidate>, start: int, last: nat, index: map<nat, Block>, e: Env,
                               modifier: nat, picks: seq<nat>)
  {
    && |picks| == Rounds(|v|)
    && (forall i :: 0 <= i < |picks| ==> picks[i] < |v| && v[picks[i]].1 in index)
    && IsRun(v, picks, start, OrderOf(v, index, e, last))
    && modifier == ModifierOf(EntropyBits(v, picks, index))
  }

  /** The rounds; none of them fails. */
  method RunRounds(v: seq<Candidate>, start: int, last: nat, index: map<nat, Block>, e: Env)
    returns (modifier: nat, ghost picks: seq<nat>)
    requires IsSorted(v) && Sound(v, index)
    ensures IsModifierOf(v, start, last, index, e, modifier, picks)
  {
    hide IsPick, ModifierOf, Sections, OrderOf, IsSorted, Pow, IsFree;
    modifier, picks := 0, [];
    ModifierStart();
    ghost var order := OrderOf(v, index, e, last);
    var stop, taken: set<nat> := start, {};
    for r := 0 to Rounds(|v|)
      invariant |picks| == r && stop == start + Sections(r)
      invariant forall i :: 0 <= i < |picks| ==> picks[i] < |v| && v[picks[i]].1 in index
      invariant taken == Taken(v, picks)
      invariant IsRun(v, picks, start, order)
      invariant modifier == ModifierOf(EntropyBits(v, picks, index))
    {
      stop := stop + Section(r);
      SectionsStep(r);
      SomeFree(v, picks);
      var pick := SelectBlockFromCandidates(v, taken, stop, last, index, e);
      PickIsFree(v, pick.value, taken, stop, order);
      var b := index[v[pick.value].1];
      RunGrows(v, picks, pick.value, start, order);
      BitsGrow(v, picks, pick.value, index);
      modifier := modifier + b.entropyBit * Pow(2, r);
      ghost var was := picks;
      picks := picks + [pick.value];
      TakenGrows(v, picks, r);
      assert picks[..r] == was && picks[..r + 1] == picks;
      taken := taken + {b.hash};
    }
  }

  lemma ModifierStart()
    ensures ModifierOf([]) == 0 && Sections(0) == 0
  {
  }

  lemma SectionsStep(r: nat)
    requires r < ROUNDS
    ensures Sections(r + 1) == Sections(r) + Section(r)
  {
  }

  lemma PickIsFree(v: seq<Candidate>, i: nat, taken: set<nat>, stop: int, order: Order)
    requires IsPick(v, i, taken, stop, order)
    ensures i < |v| && v[i].1 !in taken
  {
  }

  lemma RunGrows(v: seq<Candidate>, picks: seq<nat>, i: nat, start: int, order: Order)
    requires IsRun(v, picks, start, order) && |picks| < ROUNDS && i < |v|
    requires IsPick(v, i, Taken(v, picks), start + Sections(|picks| + 1), order)
    ensures IsRun(v, picks + [i], start, order)
  {
    hide *;
    var all := picks + [i];
    PicksInRange(v, picks, start, order);
    forall r | 0 <= r < |all| ensures IsPick(v, all[r], Taken(v, all[..r]), start + Sections(r + 1), order) {
      assert all[..r] == picks[..r];
      if r == |picks| { assert picks[..r] == picks; } else { RunAt(v, picks, r, start, order); }
    }
    RunFrom(v, all, start, order);
  }

  lemma PicksInRange(v: seq<Candidate>, picks: seq<nat>, start: int, order: Order)
    requires IsRun(v, picks, start, order)
    ensures forall i :: 0 <= i < |picks| ==> picks[i] < |v|
  {
  }

  lemma RunAt(v: seq<Candidate>, picks: seq<nat>, r: nat, start: int, order: Order)
    requires IsRun(v, picks, start, order) && r < |picks|
    ensures picks[r] < |v| && r < ROUNDS && forall i :: 0 <= i < r ==> picks[..r][i] < |v|
    ensures IsPick(v, picks[r], Taken(v, picks[..r]), start + Sections(r + 1), order)
  {
    hide IsPick, Taken, Sections;
  }

  lemma RunFrom(v: seq<Candidate>, picks: seq<nat>, start: int, order: Order)
    requires |picks| <= ROUNDS && forall i :: 0 <= i < |picks| ==> picks[i] < |v|
    requires forall r :: 0 <= r < |picks| ==> IsPick(v, picks[r], Taken(v, picks[..r]), start + Sections(r + 1), order)
    ensures IsRun(v, picks, start, order)
  {
    hide IsPick, Taken, Sections;
  }

  lemma BitsGrow(v: seq<Candidate>, picks: seq<nat>, i: nat, index: map<nat, Block>)
    requires forall k :: 0 <= k < |picks| ==> picks[k] < |v| && v[picks[k]].1 in index
    requires i < |v| && v[i].1 in index
    ensures ModifierOf(EntropyBits(v, picks + [i], index))
      == ModifierOf(EntropyBits(v, picks, index)) + index[v[i].1].entropyBit * Pow(2, |picks|)
  {
    var bits := EntropyBits(v, picks + [i], index);
    assert bits[..|bits| - 1] == EntropyBits(v, picks, index);
  }

  /**
   * A generated modifier: its picks are different blocks, one for each candidate up to 64; bit by bit it is their
   * entropy bits; no other picks satisfy the rounds; and it is a 64-bit number.
   */
  lemma GeneratedModifier(b: Block, g: Block, index: map<nat, Block>, e: Env, modifier: nat, picks: seq<nat>, other: seq<nat>, r: nat)
    requires Linked(b) && Indexed(b, index) && IsGenerated(b, g, index, e, modifier, picks) && r < |picks|
    requires IsRun(Candidates(b), other, Start(b), OrderOf(Candidates(b), index, e, g.nStakeModifier)) && |other| == |picks|
    ensures AllDifferent(picks) && other == picks
    ensures modifier < Pow(2, 64)
    ensures PowPositive2(r) && modifier / Pow(2, r) % 2 == index[Candidates(b)[picks[r]].1].entropyBit
  {
    hide IsRun, Pow, ModifierOf, Candidates, Start, OrderOf, Linked, Indexed;
    var v := Candidates(b);
    CandidatesAre(b, index);
    var order := OrderOf(v, index, e, g.nStakeModifier);
    RunIsDistinct(v, picks, Start(b), order);
    RunIsUnique(v, picks, other, Start(b), order);
    var bits := EntropyBits(v, picks, index);
    ModifierBits(bits, r);
    ModifierBound(bits);
    PowMonotone(2, |picks|, 64);
  }

  /** The hash of a block that a round looks at: its own, or that of zero for proof-of-stake below the upgrade. */
  ghost predicate IsHashOf(h: nat, b: Block, lowest: Block, e: Env, modifier: nat)
  {
    h == e.hash(if b.isProofOfStake && lowest.nHeight < e.upgradeHeight then 0 else b.hash, modifier)
  }

  /**
   * Proof-of-stake blocks are favoured: a proof-of-work block is picked only if every proof-of-stake block that could
   * have been has a hash at least 2^32 times as large. Of equally good blocks the first is picked.
   */
  lemma StakeIsFavoured(b: Block, g: Block, index: map<nat, Block>, e: Env, modifier: nat, picks: seq<nat>, r: nat, j: nat,
                        hp: nat, hq: nat)
    requires Linked(b) && Indexed(b, index) && IsGenerated(b, g, index, e, modifier, picks) && r < |picks| && r < ROUNDS
    requires forall i :: 0 <= i < |picks| ==> picks[i] < |Candidates(b)|
    requires IsEligible(Candidates(b), j, Taken(Candidates(b), picks[..r]), Start(b) + Sections(r + 1))
    requires forall i :: 0 <= i < |Candidates(b)| ==> Candidates(b)[i].1 in index
    requires var v := Candidates(b);
      && IsHashOf(hp, index[v[picks[r]].1], index[v[0].1], e, g.nStakeModifier)
      && IsHashOf(hq, index[v[j].1], index[v[0].1], e, g.nStakeModifier)
    ensures var v := Candidates(b);
      var p, q := index[v[picks[r]].1], index[v[j].1];
      && v[picks[r]].0 <= Start(b) + Sections(r + 1)
      && (!p.isProofOfStake && q.isProofOfStake ==> hq >= 0x1_0000_0000 * hp)
      && (p.isProofOfStake && !q.isProofOfStake ==> hp < 0x1_0000_0000 * (hq + 1))
      && var wp := if p.isProofOfStake then hp / 0x1_0000_0000 else hp;
         var wq := if q.isProofOfStake then hq / 0x1_0000_0000 else hq;
         wp < wq || (wp == wq && picks[r] <= j)
  {
    hide IsRun, Candidates, Start, Sections, Taken, Linked, Indexed, SelectionHash;
    var v, order := Candidates(b), OrderOf(Candidates(b), index, e, g.nStakeModifier);
    var stop, taken := Start(b) + Sections(r + 1), Taken(Candidates(b), picks[..r]);
    RunAt(v, picks, r, Start(b), order);
    assert IsBest(v, picks[r], taken, stop, order);
    var isV2 := IsV2(v, index, e);
    SelectionIs(index[v[picks[r]].1], e, isV2, g.nStakeModifier);
    SelectionIs(index[v[j].1], e, isV2, g.nStakeModifier);
    QuotientUnique(hp, 0x1_0000_0000, SelectionHash(index[v[picks[r]].1], e, isV2, g.nStakeModifier));
    QuotientUnique(hq, 0x1_0000_0000, SelectionHash(index[v[j].1], e, isV2, g.nStakeModifier));
  }

  lemma QuotientUnique(h: nat, d: nat, s: nat)
    requires d > 0
    ensures s * d <= h < (s + 1) * d ==> h / d == s
  {
    QuotientIs(h, d);
    AtLeastOneMore(s, h / d, d);
    AtLeastOneMore(h / d, s, d);
  }

  /**
   * After all rounds the interval has been gone through: the last pick is made with the last multiple of the modifier
   * interval before the block's time as its stop.
   */
  lemma LastStop(b: Block, g: Block, index: map<nat, Block>, e: Env, modifier: nat, picks: seq<nat>)
    requires IsGenerated(b, g, index, e, modifier, picks) && |picks| == ROUNDS
    ensures Start(b) + Sections(ROUNDS) == AlignedTime(b) <= b.nTime < AlignedTime(b) + MODIFIER_INTERVAL
    ensures forall i :: 0 <= i < |picks| ==> picks[i] < |Candidates(b)|
    ensures IsPick(Candidates(b), picks[ROUNDS - 1], Taken(Candidates(b), picks[..ROUNDS - 1]), AlignedTime(b),
                   OrderOf(Candidates(b), index, e, g.nStakeModifier))
  {
    hide IsRun, IsPick, Candidates, OrderOf, Sections, Taken, Start, AlignedTime;
    StartIs(b);
    AlignedIs(b);
    RunAt(Candidates(b), picks, ROUNDS - 1, Start(b), OrderOf(Candidates(b), index, e, g.nStakeModifier));
  }

  lemma AlignedIs(b: Block)
    ensures AlignedTime(b) <= b.nTime < AlignedTime(b) + MODIFIER_INTERVAL
  {
    QuotientIs(b.nTime, MODIFIER_INTERVAL);
  }

  /** The pick of a round is later than the round's stop exactly when no candidate at or before the stop was left. */
  lemma LateOnlyIfNoneEarlier(b: Block, g: Block, index: map<nat, Block>, e: Env, modifier: nat, picks: seq<nat>, r: nat)
    requires IsGenerated(b, g, index, e, modifier, picks) && r < |picks|
    ensures r < ROUNDS && forall i :: 0 <= i < |picks| ==> picks[i] < |Candidates(b)|
    ensures var v, stop := Candidates(b), Start(b) + Sections(r + 1);
      v[picks[r]].0 > stop <==> forall j: nat :: IsFree(v, j, Taken(v, picks[..r])) ==> v[j].0 > stop
  {
    hide IsRun, Candidates, OrderOf, Sections, Taken, Start, AlignedTime;
    var v, stop, order := Candidates(b), Start(b) + Sections(r + 1), OrderOf(Candidates(b), index, e, g.nStakeModifier);
    RunAt(v, picks, r, Start(b), order);
    LateIf(v, picks[r], Taken(v, picks[..r]), stop, order);
  }

  lemma LateIf(v: seq<Candidate>, i: nat, taken: set<nat>, stop: int, order: Order)
    requires IsPick(v, i, taken, stop, order)
    ensures i < |v| && (v[i].0 > stop <==> forall j: nat :: IsFree(v, j, taken) ==> v[j].0 > stop)
  {
    if j: nat :| IsFree(v, j, taken) && v[j].0 <= stop { assert IsEligible(v, j, taken, stop); }
  }
}
