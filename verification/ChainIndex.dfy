/**
 * The active chain as an array of blocks indexed by height: moving its tip, finding forks, and the locators that
 * tell a peer where a chain is.
 */
module ChainIndex {
  import opened Blocks
  import opened Radix
  import opened Wrappers

  // ----- the blocks up to a tip

  function Path(b: Block): (s: seq<Block>)
    ensures s != []
  {
    if b.pprev.None? then [b] else Path(b.pprev.value) + [b]
  }

  lemma {:induction false} PathIs(b: Block)
    requires Linked(b)
    ensures |Path(b)| == b.nHeight + 1 && forall h: nat :: h <= b.nHeight ==> Path(b)[h] == Anc(b, h)
  {
    hide SkipHeight;
    if b.pprev.Some? { PathIs(b.pprev.value); }
  }

  function Somes(s: seq<Block>): seq<Option<Block>>
  {
    seq(|s|, i requires 0 <= i < |s| => Some(s[i]))
  }

  // ----- locators

  function Down(h: nat, step: nat): nat
  {
    if h <= step then 0 else h - step
  }

  /** The blocks of a locator from `b` on, when `have` are in it already. */
  function Locator(b: Block, step: nat, have: nat): seq<Block>
    requires Linked(b) && step > 0
    decreases b.nHeight
  {
    if b.nHeight == 0 then [b]
    else
      AncIs(b, Down(b.nHeight, step));
      [b] + Locator(Anc(b, Down(b.nHeight, step)), if have + 1 > 10 then 2 * step else step, have + 1)
  }

  function Hashes(s: seq<Block>): seq<nat>
  {
    seq(|s|, i requires 0 <= i < |s| => s[i].hash)
  }

  ghost predicate FallsToGenesis(s: seq<Block>, b: Block)
  {
    && s != [] && s[0] == b && s[|s| - 1] == Anc(b, 0)
    && (forall i :: 0 <= i < |s| ==> IsAncestor(s[i], b))
    && (forall i, j :: 0 <= i < j < |s| ==> s[i].nHeight > s[j].nHeight)
  }

  /** A locator lists ancestors of its start, itself first, at strictly falling heights, down to the genesis block. */
  lemma {:induction false} LocatorFalls(b: Block, step: nat, have: nat)
    requires Linked(b) && step > 0
    ensures FallsToGenesis(Locator(b, step, have), b)
    decreases b.nHeight
  {
    hide Linked, Anc;
    AncSelf(b);
    if b.nHeight > 0 {
      var h, s := Down(b.nHeight, step), Locator(b, step, have);
      AncIs(b, h);
      var next := Anc(b, h);
      LocatorFalls(next, if have + 1 > 10 then 2 * step else step, have + 1);
      AncOfAnc(b, h, 0);
      forall i | 0 <= i < |s| ensures IsAncestor(s[i], b) {
        if i > 0 {
          assert s[i] == s[1..][i - 1];
          AncestorsTransitive(s[i], next, b);
        }
      }
      assert s[1..] == Locator(next, if have + 1 > 10 then 2 * step else step, have + 1);
      forall i, j | 0 <= i < j < |s| ensures s[i].nHeight > s[j].nHeight {
        assert s[j] == s[1..][j - 1];
        if i > 0 { assert s[i] == s[1..][i - 1]; }
      }
    }
  }

  /** `m` is the logarithm of `x` to base 2, rounded up. */
  ghost predicate IsCeilLog2(x: nat, m: nat)
  {
    Pow(2, m) >= x && (m > 0 ==> Pow(2, m - 1) < x)
  }

  /** `m` doubling steps, the first of length `step`, are just enough to get from height `h` to zero. */
  ghost predicate JustReaches(h: nat, step: nat, m: nat)
  {
    step * (Pow(2, m) - 1) >= h && (m > 0 ==> step * (Pow(2, m - 1) - 1) < h)
  }

  lemma {:induction false} DoublingSteps(b: Block, step: nat, have: nat)
    requires Linked(b) && step > 0 && have >= 10
    ensures |Locator(b, step, have)| >= 1 && JustReaches(b.nHeight, step, |Locator(b, step, have)| - 1)
    decreases b.nHeight
  {
    hide Linked, Anc;
    var h := b.nHeight;
    if h > 0 {
      AncIs(b, Down(h, step));
      var rest := Locator(Anc(b, Down(h, step)), 2 * step, have + 1);
      DoublingSteps(Anc(b, Down(h, step)), 2 * step, have + 1);
      OneStepMore(h, step, |rest| - 1);
    }
  }

  lemma OneStepMore(h: nat, step: nat, m: nat)
    requires h > 0 && step > 0 && JustReaches(Down(h, step), 2 * step, m)
    ensures JustReaches(h, step, m + 1)
  {
    assert Pow(2, m + 1) == 2 * Pow(2, m) && (m > 0 ==> Pow(2, m) == 2 * Pow(2, m - 1)) && (m == 0 ==> Pow(2, m) == 1);
    PowPositive(2, m);
    if m > 0 { PowPositive(2, m - 1); }
    hide Pow;
    DoubleLessOne(step, Pow(2, m));
    if m > 0 { DoubleLessOne(step, Pow(2, m - 1)); }
  }

  lemma DoubleLessOne(step: nat, p: nat)
    requires p > 0
    ensures step * (2 * p - 1) == 2 * step * (p - 1) + step && 2 * step * (p - 1) >= 0
    ensures p == 1 ==> step * (p - 1) == 0
  {
    var q: nat := p - 1;
    assert step * (2 * q + 1) == step * (2 * q) + step;
    assert step * (2 * q) == 2 * step * q;
  }

  lemma {:induction false} SingleSteps(b: Block, have: nat)
    requires Linked(b) && have <= 10
    ensures b.nHeight <= 10 - have ==> |Locator(b, 1, have)| == b.nHeight + 1
    ensures b.nHeight >= 10 - have ==>
      |Locator(b, 1, have)| > 10 - have && IsCeilLog2(b.nHeight - (10 - have) + 1, |Locator(b, 1, have)| - (10 - have) - 1)
    decreases 10 - have
  {
    hide Linked, Anc;
    if have == 10 {
      DoublingSteps(b, 1, have);
      if b.nHeight == 0 { assert Locator(b, 1, have) == [b]; }
    } else if b.nHeight > 0 {
      AncIs(b, b.nHeight - 1);
      SingleSteps(Anc(b, b.nHeight - 1), have + 1);
    }
  }

  /** How long a locator is: every height down to 10 below the start, then about one entry for each bit. */
  lemma LocatorLength(b: Block)
    requires Linked(b)
    ensures b.nHeight <= 10 ==> |Locator(b, 1, 0)| == b.nHeight + 1
    ensures b.nHeight >= 10 ==> |Locator(b, 1, 0)| >= 11 && IsCeilLog2(b.nHeight - 9, |Locator(b, 1, 0)| - 11)
  {
    SingleSteps(b, 0);
  }

  // ----- the chain

  class CChain {
    var vChain: seq<Option<Block>>

    constructor ()
      ensures Valid() && vChain == []
    {
      vChain := [];
    }

    /** Empty, or all ancestors of the tip in order. */
    ghost predicate Valid()
      reads this
    {
      vChain != [] ==> HoldsPath(vChain)
    }

    function At(nHeight: int): Option<Block>
      reads this
    {
      if nHeight < 0 || nHeight >= |vChain| then None else vChain[nHeight]
    }

    function Tip(): Option<Block>
      reads this
    {
      if |vChain| < 1 then None else vChain[|vChain| - 1]
    }

    function Height(): int
      reads this
    {
      |vChain| - 1
    }

    predicate Contains(b: Block)
      reads this
    {
      At(b.nHeight) == Some(b)
    }

    function Next(b: Block): Option<Block>
      reads this
    {
      if Contains(b) then At(b.nHeight + 1) else None
    }

    /** A chain contains exactly the ancestors of its tip. */
    lemma ContainsAncestors(b: Block)
      requires Valid()
      ensures Contains(b) <==> Tip().Some? && IsAncestor(b, Tip().value)
      ensures Tip().Some? ==> Linked(Tip().value) && Height() == Tip().value.nHeight
    {
      if vChain != [] { PathIs(vChain[|vChain| - 1].value); }
      hide Path, Linked, Anc;
    }

    /** Of two blocks in the chain, one follows the other exactly when it is the other's child. */
    lemma NextIsChild(b: Block, c: Block)
      requires Valid() && Contains(c)
      ensures Next(b) == Some(c) <==> c.pprev == Some(b)
    {
      ContainsAncestors(b);
      ContainsAncestors(c);
      var t := Tip().value;
      hide IsAncestor, Anc;
      ChildAt(t, b, c);
      assert IsAncestor(c, t);
      if Next(b) == Some(c) { AtIs(b.nHeight + 1); }
    }

    lemma AtIs(h: nat)
      requires Valid() && h < |vChain|
      ensures vChain[h].Some? && vChain[h].value.nHeight == h
    {
      var t := vChain[|vChain| - 1].value;
      PathIs(t);
      AncIs(t, h);
    }

    /** Moves the tip; the entries from which on the chain already is right stay. */
    method SetTip(pindex: Option<Block>)
      requires Valid() && (pindex.Some? ==> Linked(pindex.value))
      modifies this
      ensures Valid() && vChain == if pindex.None? then [] else Somes(Path(pindex.value))
    {
      hide Path, Linked, Anc, HoldsPath, Somes, Resized;
      if pindex.None? {
        vChain := [];
        return;
      }
      var b := pindex.value;
      ghost var was := vChain;
      vChain := Resized(vChain, b.nHeight + 1);
      var p := pindex;
      ghost var h: int := b.nHeight;
      AncSelf(b);
      while p.Some? && vChain[p.value.nHeight] != p
        invariant -1 <= h <= b.nHeight && |vChain| == b.nHeight + 1
        invariant if h < 0 then p == None else p == Some(Anc(b, h)) && p.value.nHeight == h
        invariant forall k: nat :: h < k <= b.nHeight ==> vChain[k] == Some(Anc(b, k))
        invariant forall k: nat :: k <= h ==> vChain[k] == if k < |was| then was[k] else None
        decreases h
      {
        vChain := vChain[p.value.nHeight := p];
        StepDown(b, h);
        if h > 0 { AncIs(b, h - 1); }
        p := p.value.pprev;
        h := h - 1;
      }
      if h >= 0 { SameBelow(was, b, h); }
      IsPath(b, vChain);
      PathHolds(b);
    }

    /** The last block of the chain that `pindex` has as an ancestor. */
    method FindFork(pindex: Block) returns (r: Option<Block>)
      requires Valid() && Linked(pindex)
      ensures if vChain == [] then r == None else IsLastCommon(r, pindex, Tip().value)
    {
      hide Linked, Anc, Path;
      r := Some(pindex);
      AncSelf(pindex);
      if pindex.nHeight > Height() {
        r := GetAncestor(pindex, Height());
      }
      ghost var top: int := if pindex.nHeight > Height() then Height() else pindex.nHeight;
      ghost var h := top;
      if h >= 0 { AncIs(pindex, h); }
      while r.Some? && !Contains(r.value)
        invariant -1 <= h <= top
        invariant if h < 0 then r == None else r == Some(Anc(pindex, h)) && r.value.nHeight == h
        invariant forall k: nat :: h < k <= top ==> !Contains(Anc(pindex, k))
        decreases h
      {
        StepDown(pindex, h);
        if h > 0 { AncIs(pindex, h - 1); }
        r := r.value.pprev;
        h := h - 1;
      }
      forall c ensures IsAncestor(c, pindex) && Contains(c) ==> r.Some? && c.nHeight <= r.value.nHeight {
        if IsAncestor(c, pindex) && Contains(c) { assert c == Anc(pindex, c.nHeight); }
      }
      if vChain != [] {
        forall c ensures Contains(c) <==> IsAncestor(c, Tip().value) { ContainsAncestors(c); }
        if r.Some? { AncIs(pindex, h); }
      }
    }

    /** The same locator whether ancestors are looked up in the chain or by following pointers. */
    method GetLocator(start: Option<Block>) returns (vHave: seq<nat>)
      requires Valid() && (start.Some? ==> Linked(start.value))
      ensures var from := if start.None? then Tip() else start;
        from.Some? ==> Linked(from.value)
      ensures var from := if start.None? then Tip() else start;
        vHave == if from.None? then [] else Hashes(Locator(from.value, 1, 0))
    {
      hide Path, Linked, Anc, Locator;
      var nStep, pindex := 1, start;
      vHave := [];
      if pindex.None? {
        pindex := Tip();
        if pindex.Some? { ContainsAncestors(pindex.value); }
      }
      ghost var all := if pindex.None? then [] else Locator(pindex.value, 1, 0);
      while pindex.Some?
        invariant nStep > 0
        invariant pindex.Some? ==> Linked(pindex.value) && |vHave| <= |all| && vHave == Hashes(all[..|vHave|])
        invariant pindex.Some? ==> all[|vHave|..] == Locator(pindex.value, nStep, |vHave|)
        invariant pindex.None? ==> vHave == Hashes(all)
        decreases if pindex.None? then 0 else 1 + pindex.value.nHeight
      {
        LocatorUnfolds(pindex.value, nStep, |vHave|);
        assert all[..|vHave| + 1] == all[..|vHave|] + [pindex.value];
        ghost var n := |vHave|;
        vHave := vHave + [pindex.value.hash];
        assert vHave == Hashes(all[..n + 1]);
        // The genesis block ends the locator.
        if pindex.value.nHeight == 0 {
          assert all[..n + 1] == all;
          break;
        }
        // The steps get longer, but never go below the genesis block.
        var nHeight := Down(pindex.value.nHeight, nStep);
        AncIs(pindex.value, nHeight);
        if Contains(pindex.value) {
          AncestorAt(pindex.value, nHeight);
          pindex := At(nHeight);
        } else {
          pindex := GetAncestor(pindex.value, nHeight);
        }
        assert all[n + 1..] == all[n..][1..];
        if |vHave| > 10 {
          nStep := 2 * nStep;
        }
      }
    }

    /** In the chain, the entry at a lower height is the ancestor there. */
    lemma AncestorAt(b: Block, h: nat)
      requires Valid() && Contains(b) && h <= b.nHeight
      ensures At(h) == Some(Anc(b, h))
    {
      var t := Tip().value;
      PathIs(t);
      AncOfAnc(t, b.nHeight, h);
      hide Path, Linked, Anc;
    }
  }

  lemma IsPath(b: Block, vChain: seq<Option<Block>>)
    requires Linked(b) && |vChain| == b.nHeight + 1 && forall k: nat :: k <= b.nHeight ==> vChain[k] == Some(Anc(b, k))
    ensures vChain == Somes(Path(b))
  {
    hide Path, Linked, Anc;
    PathIs(b);
  }

  predicate HoldsPath(vChain: seq<Option<Block>>)
    requires vChain != []
  {
    var t := vChain[|vChain| - 1];
    t.Some? && Linked(t.value) && vChain == Somes(Path(t.value))
  }

  lemma PathHolds(b: Block)
    requires Linked(b)
    ensures HoldsPath(Somes(Path(b))) && |Path(b)| == b.nHeight + 1
  {
    PathIs(b);
    AncSelf(b);
    hide Path, Linked, Anc;
  }

  lemma ChildAt(t: Block, b: Block, c: Block)
    requires Linked(t) && IsAncestor(c, t)
    ensures c.pprev == Some(b) <==> IsAncestor(b, t) && c.nHeight == b.nHeight + 1
  {
    hide Linked, Anc;
    AncIs(t, c.nHeight);
    StepDown(t, c.nHeight);
    if c.nHeight > 0 { AncIs(t, c.nHeight - 1); }
  }

  function Resized(s: seq<Option<Block>>, n: nat): (r: seq<Option<Block>>)
    ensures |r| == n && forall k :: 0 <= k < n ==> r[k] == if k < |s| then s[k] else None
  {
    if n <= |s| then s[..n] else s + seq(n - |s|, _ => None)
  }

  /** Where a chain has a block's ancestor it has all ancestors below. */
  lemma SameBelow(was: seq<Option<Block>>, b: Block, h: nat)
    requires Linked(b) && h <= b.nHeight && (was != [] ==> HoldsPath(was))
    requires (if h < |was| then was[h] else None) == Some(Anc(b, h))
    ensures forall k: nat :: k <= h ==> k < |was| && was[k] == Some(Anc(b, k))
  {
    var t := was[|was| - 1].value;
    PathIs(t);
    hide Path, Linked, Anc;
    forall k: nat | k <= h ensures was[k] == Some(Anc(b, k)) {
      AncOfAnc(t, h, k);
      AncOfAnc(b, h, k);
    }
  }

  lemma LocatorUnfolds(b: Block, step: nat, have: nat)
    requires Linked(b) && step > 0
    ensures Locator(b, step, have) != [] && Locator(b, step, have)[0] == b
    ensures b.nHeight == 0 ==> Locator(b, step, have) == [b]
    ensures b.nHeight > 0 ==> Linked(Anc(b, Down(b.nHeight, step)))
    ensures b.nHeight > 0 ==>
      Locator(b, step, have)[1..] == Locator(Anc(b, Down(b.nHeight, step)), if have + 1 > 10 then 2 * step else step, have + 1)
  {
    if b.nHeight > 0 { AncIs(b, Down(b.nHeight, step)); }
    hide Linked, Anc;
  }

  // ----- what a peer makes of a locator

  ghost predicate IsIndex(index: map<nat, Block>, chain: CChain)
    reads chain
  {
    forall h :: 0 <= h < |chain.vChain| && chain.vChain[h].Some? ==>
      var b := chain.vChain[h].value; b.hash in index && index[b.hash] == b
  }

  ghost predicate InChain(chain: CChain, index: map<nat, Block>, hash: nat)
    reads chain
  {
    hash in index && chain.Contains(index[hash])
  }

  /** `r` is the first block of a locator that is in the chain, or the chain's genesis block if there is none. */
  ghost predicate IsFirstInChain(r: Option<Block>, chain: CChain, index: map<nat, Block>, vHave: seq<nat>)
    reads chain
  {
    || (r == chain.At(0) && forall j :: 0 <= j < |vHave| ==> !InChain(chain, index, vHave[j]))
    || (exists i :: 0 <= i < |vHave| && FirstAt(r, chain, index, vHave, i))
  }

  ghost predicate FirstAt(r: Option<Block>, chain: CChain, index: map<nat, Block>, vHave: seq<nat>, i: nat)
    requires i < |vHave|
    reads chain
  {
    && InChain(chain, index, vHave[i]) && r == Some(index[vHave[i]])
    && forall j :: 0 <= j < i ==> !InChain(chain, index, vHave[j])
  }

  method FindForkInGlobalIndex(chain: CChain, index: map<nat, Block>, vHave: seq<nat>) returns (r: Option<Block>)
    ensures IsFirstInChain(r, chain, index, vHave)
  {
    for i := 0 to |vHave|
      invariant forall j :: 0 <= j < i ==> !InChain(chain, index, vHave[j])
    {
      if vHave[i] in index && chain.Contains(index[vHave[i]]) {
        assert FirstAt(Some(index[vHave[i]]), chain, index, vHave, i);
        return Some(index[vHave[i]]);
      }
    }
    r := chain.At(0);
  }

  /**
   * A peer that is sent the locator of `start` finds the highest entry at or below the point where its chain forks
   * off, provided that no two blocks have the same hash. So nothing that it sends from there on leaves a gap.
   */
  lemma SyncPoint(chain: CChain, index: map<nat, Block>, start: Block, fork: Block, r: Option<Block>)
    requires chain.Valid() && IsIndex(index, chain) && Linked(start)
    requires chain.Tip().Some? && IsLastCommon(Some(fork), start, chain.Tip().value)
    requires forall b :: IsAncestor(b, start) && b.hash in index ==> index[b.hash] == b
    requires IsFirstInChain(r, chain, index, Hashes(Locator(start, 1, 0)))
    ensures r.Some? && r.value in Locator(start, 1, 0) && IsAncestor(r.value, fork)
    ensures forall b :: b in Locator(start, 1, 0) && b.nHeight <= fork.nHeight ==> b.nHeight <= r.value.nHeight
  {
    hide Linked, Anc, Path, Locator;
    var s := Locator(start, 1, 0);
    var vHave := Hashes(s);
    LocatorFalls(start, 1, 0);
    forall i | 0 <= i < |s| ensures InChain(chain, index, vHave[i]) <==> s[i].nHeight <= fork.nHeight {
      EntryInChain(chain, index, start, fork, s[i]);
    }
    AncIs(start, 0);
    assert InChain(chain, index, vHave[|s| - 1]);
    var i :| 0 <= i < |vHave| && FirstAt(r, chain, index, vHave, i);
    assert r == Some(s[i]) by { EntryInChain(chain, index, start, fork, s[i]); }
    AncOfAnc(start, fork.nHeight, s[i].nHeight);
  }

  lemma EntryInChain(chain: CChain, index: map<nat, Block>, start: Block, fork: Block, b: Block)
    requires chain.Valid() && IsIndex(index, chain) && Linked(start)
    requires chain.Tip().Some? && IsLastCommon(Some(fork), start, chain.Tip().value)
    requires IsAncestor(b, start) && (b.hash in index ==> index[b.hash] == b)
    ensures InChain(chain, index, b.hash) <==> b.nHeight <= fork.nHeight
    ensures b.hash in index ==> index[b.hash] == b
  {
    hide Linked, Anc, Path;
    chain.ContainsAncestors(b);
    CommonAncestors(fork, start, chain.Tip().value, b);
    AncOfAnc(start, fork.nHeight, if b.nHeight <= fork.nHeight then b.nHeight else 0);
    if chain.Contains(b) { assert chain.vChain[b.nHeight] == Some(b); }
  }
}
