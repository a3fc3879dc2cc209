/**
 * Blocks of the block index, their ancestry, and the skip pointers that make it quick to follow.
 * A block is a value that contains its ancestors, as the parent pointers of the index never change.
 */
module Blocks {
  import opened Radix
  import opened Wrappers

  datatype Block = Block(hash: nat, nHeight: nat, pprev: Option<Block>, pskip: Option<Block>)

  // ----- ancestry

  /** The ancestor at height `h`, by following parents one at a time. */
  function Anc(b: Block, h: nat): Block
  {
    if b.nHeight <= h || b.pprev.None? then b else Anc(b.pprev.value, h)
  }

  /** Clears the lowest bit of `n` that is set. */
  function InvertLowestOne(n: nat): (r: nat)
    ensures n > 0 ==> r < n
    ensures n % 2 == 0 ==> r % 2 == 0
    ensures n == 0 ==> r == 0
  {
    if n % 2 == 1 then n - 1 else if n == 0 then 0 else 2 * InvertLowestOne(n / 2)
  }

  /** The height a block's skip pointer leads to. */
  function SkipHeight(h: nat): (r: nat)
    ensures h > 0 ==> r < h
    ensures h < 2 ==> r == 0
  {
    if h < 2 then 0
    else if h % 2 == 1 then InvertLowestOne(InvertLowestOne(h - 1)) + 1
    else InvertLowestOne(h)
  }

  /** The power of two taken off is the largest one that divides the number. */
  lemma {:induction false} InvertIs(n: nat) returns (k: nat, odd: nat)
    requires n > 0
    ensures n == (2 * odd + 1) * Pow(2, k) && InvertLowestOne(n) == n - Pow(2, k)
  {
    hide Pow;
    if n % 2 == 1 {
      k, odd := 0, n / 2;
      assert Pow(2, 0) == 1 by { PowZero(); }
    } else {
      k, odd := InvertIs(n / 2);
      NextPow(k);
      assert (2 * odd + 1) * (2 * Pow(2, k)) == 2 * ((2 * odd + 1) * Pow(2, k));
      k := k + 1;
    }
  }

  lemma PowZero()
    ensures Pow(2, 0) == 1
  {
  }

  lemma NextPow(k: nat)
    ensures Pow(2, k + 1) == 2 * Pow(2, k)
  {
  }

  /** Even heights skip to the height without their lowest bit; odd ones to one above that without its two lowest bits. */
  lemma SkipIs(h: nat) returns (j: nat, k: nat, a: nat, b: nat)
    requires h >= 2
    ensures h % 2 == 0 ==> h == (2 * a + 1) * Pow(2, j) && SkipHeight(h) == h - Pow(2, j)
    ensures h % 2 == 1 ==>
      h - 1 == (2 * a + 1) * Pow(2, j)
      && SkipHeight(h) == if h - 1 == Pow(2, j) then 1 else h - Pow(2, j) - Pow(2, k)
    ensures h % 2 == 1 && h - 1 > Pow(2, j) ==> h - 1 - Pow(2, j) == (2 * b + 1) * Pow(2, k)
  {
    hide InvertLowestOne, Pow;
    k, b := 0, 0;
    var n := if h % 2 == 0 then h else h - 1;
    j, a := InvertIs(n);
    if h % 2 == 1 && n > Pow(2, j) { k, b := InvertIs(n - Pow(2, j)); }
  }

  /** Heights count up from a block without parent, and skip pointers lead to ancestors. */
  predicate Linked(b: Block)
  {
    match b.pprev
    case None => b.nHeight == 0
    case Some(p) => b.nHeight == p.nHeight + 1 && Linked(p) && b.pskip == Some(Anc(p, SkipHeight(b.nHeight)))
  }

  predicate IsAncestor(a: Block, b: Block)
  {
    a.nHeight <= b.nHeight && Anc(b, a.nHeight) == a
  }

  lemma {:induction false} AncIs(b: Block, h: nat)
    requires Linked(b) && h <= b.nHeight
    ensures Linked(Anc(b, h)) && Anc(b, h).nHeight == h && IsAncestor(Anc(b, h), b)
  {
    hide SkipHeight;
    if h < b.nHeight { AncIs(b.pprev.value, h); }
  }

  lemma {:induction false} AncOfAnc(b: Block, h: nat, k: nat)
    requires Linked(b) && k <= h <= b.nHeight
    ensures Anc(Anc(b, h), k) == Anc(b, k)
  {
    hide SkipHeight;
    if h < b.nHeight { AncOfAnc(b.pprev.value, h, k); }
  }

  lemma AncestorsTransitive(a: Block, b: Block, c: Block)
    requires Linked(c) && IsAncestor(a, b) && IsAncestor(b, c)
    ensures IsAncestor(a, c)
  {
    AncOfAnc(c, b.nHeight, a.nHeight);
  }

  lemma ParentIs(b: Block, h: nat)
    requires Linked(b) && 0 < h <= b.nHeight
    ensures Anc(b, h).pprev == Some(Anc(b, h - 1)) && Anc(b, h).pskip == Some(Anc(b, SkipHeight(h)))
  {
    hide SkipHeight;
    AncIs(b, h);
    var a := Anc(b, h);
    AncOfAnc(b, h, h - 1);
    AncOfAnc(b, h, SkipHeight(h));
    assert Anc(a, h - 1) == Anc(a.pprev.value, h - 1) == a.pprev.value;
  }

  // ----- following skip pointers

  /** A new block on top of a parent: what the parts of the index that create blocks do, and BuildSkip. */
  method Extend(hash: nat, parent: Option<Block>) returns (b: Block)
    requires parent.Some? ==> Linked(parent.value)
    ensures Linked(b) && b.hash == hash && b.pprev == parent
  {
    if parent.None? {
      return Block(hash, 0, None, None);
    }
    var nHeight := parent.value.nHeight + 1;
    var pskip := GetAncestor(parent.value, SkipHeight(nHeight));
    b := Block(hash, nHeight, parent, pskip);
  }

  /** The ancestor at a height, found by skipping where that leads down faster; none outside 0 .. the block's own. */
  method GetAncestor(b: Block, height: int) returns (r: Option<Block>)
    requires Linked(b)
    ensures r == if 0 <= height <= b.nHeight then Some(Anc(b, height)) else None
  {
    hide SkipHeight, Anc;
    if height > b.nHeight || height < 0 {
      return None;
    }
    var pindexWalk, heightWalk := b, b.nHeight;
    AncIs(b, b.nHeight);
    AncSelf(b);
    while heightWalk > height
      invariant height <= heightWalk <= b.nHeight && pindexWalk == Anc(b, heightWalk)
    {
      ParentIs(b, heightWalk);
      var heightSkip := SkipHeight(heightWalk);
      var heightSkipPrev := SkipHeight(heightWalk - 1);
      if heightSkip == height || (heightSkip > height && !(heightSkipPrev < heightSkip - 2 && heightSkipPrev >= height)) {
        pindexWalk := pindexWalk.pskip.value;
        heightWalk := heightSkip;
      } else {
        pindexWalk := pindexWalk.pprev.value;
        heightWalk := heightWalk - 1;
      }
    }
    r := Some(pindexWalk);
  }

  lemma AncSelf(b: Block)
    ensures Anc(b, b.nHeight) == b
  {
  }

  // ----- common ancestors

  /** `r` is the highest block that is an ancestor of both; there may be none, if they have different roots. */
  ghost predicate IsLastCommon(r: Option<Block>, a: Block, b: Block)
  {
    match r
    case None => forall c :: !(IsAncestor(c, a) && IsAncestor(c, b))
    case Some(f) =>
      && IsAncestor(f, a) && IsAncestor(f, b)
      && forall c :: IsAncestor(c, a) && IsAncestor(c, b) ==> c.nHeight <= f.nHeight
  }

  lemma LastCommonIsUnique(r: Option<Block>, s: Option<Block>, a: Block, b: Block)
    requires IsLastCommon(r, a, b) && IsLastCommon(s, a, b)
    ensures r == s
  {
  }

  /** The ancestors common to both are exactly those of the last one. */
  lemma CommonAncestors(f: Block, a: Block, b: Block, c: Block)
    requires Linked(a) && Linked(b) && IsLastCommon(Some(f), a, b)
    ensures IsAncestor(c, a) && IsAncestor(c, b) <==> IsAncestor(c, f)
  {
    hide Linked, Anc;
    if IsAncestor(c, f) {
      AncestorsTransitive(c, f, a);
      AncestorsTransitive(c, f, b);
    }
    if IsAncestor(c, a) && IsAncestor(c, b) { AncOfAnc(a, f.nHeight, c.nHeight); }
  }

  method LastCommonAncestor(a: Block, b: Block) returns (r: Option<Block>)
    requires Linked(a) && Linked(b)
    ensures IsLastCommon(r, a, b)
  {
    hide Linked, Anc;
    var pa, pb := Some(a), Some(b);
    AncSelf(a);
    AncSelf(b);
    if a.nHeight > b.nHeight {
      pa := GetAncestor(a, b.nHeight);
    } else if b.nHeight > a.nHeight {
      pb := GetAncestor(b, a.nHeight);
    }
    var top := if a.nHeight <= b.nHeight then a.nHeight else b.nHeight;
    ghost var h: int := top;
    while pa != pb && pa.Some? && pb.Some?
      invariant -1 <= h <= top
      invariant if h < 0 then pa == None && pb == None else pa == Some(Anc(a, h)) && pb == Some(Anc(b, h))
      invariant forall k: nat :: h < k <= top ==> Anc(a, k) != Anc(b, k)
      decreases h
    {
      StepDown(a, h);
      StepDown(b, h);
      pa, pb := pa.value.pprev, pb.value.pprev;
      h := h - 1;
    }
    assert pa == pb;
    r := pa;
    if h >= 0 { AncIs(a, h); AncIs(b, h); }
    assert forall c :: IsAncestor(c, a) && IsAncestor(c, b) ==> c.nHeight <= h;
  }

  lemma StepDown(b: Block, h: nat)
    requires Linked(b) && h <= b.nHeight
    ensures Anc(b, h).pprev == if h == 0 then None else Some(Anc(b, h - 1))
  {
    hide SkipHeight;
    AncIs(b, h);
    if h > 0 { ParentIs(b, h); }
  }
}
