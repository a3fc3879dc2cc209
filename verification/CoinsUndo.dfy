/**
 * Spending outputs of a transaction, and undoing it when a block is disconnected: what undoing restores.
 */
module CoinsUndo {
  import opened Coins
  import opened CoinsCodec
  import opened Wrappers

  /** What is needed to undo a spend; only that of the last unspent output has more than the output. */
  datatype Undo = Undo(txout: TxOut, coinBase: bool, coinStake: bool, height: nat, version: nat)

  function OutOnly(o: TxOut): Undo
  {
    Undo(o, false, false, 0, 0)
  }

  /** Spends output `n`; there is no result if it is not there or already spent. */
  function Spent(c: Coins, n: nat): Option<(Coins, Undo)>
  {
    if !Avail(c.outs, n) then None
    else
      var d := Trim(c.(outs := c.outs[n := NULL_OUT]));
      Some((d, if d.outs == [] then Undo(c.outs[n], c.coinBase, c.coinStake, c.height, c.version) else OutOnly(c.outs[n])))
  }

  method Spend(c: Coins, n: nat) returns (r: Option<(Coins, Undo)>)
    ensures r == Spent(c, n)
  {
    if n >= |c.outs| {
      return None;
    }
    if IsNull(c.outs[n]) {
      return None;
    }
    var undo := OutOnly(c.outs[n]);
    var d := Cleanup(c.(outs := c.outs[n := NULL_OUT]));
    if |d.outs| == 0 {
      undo := undo.(height := c.height, coinBase := c.coinBase, coinStake := c.coinStake, version := c.version);
    }
    r := Some((d, undo));
  }

  function Padded(outs: seq<TxOut>, n: nat): (r: seq<TxOut>)
    ensures |r| >= n
  {
    if |outs| < n then outs + seq(n - |outs|, _ => NULL_OUT) else outs
  }

  /** The coins after undoing, and whether disconnecting found nothing wrong with them. `isMint` tells mint scripts. */
  function Restored(c: Coins, u: Undo, n: nat, isMint: seq<Byte> -> bool): (Coins, bool)
  {
    var d := if u.height != 0 then Coins(u.coinBase, false, [], u.height, u.version) else c;
    (d.(outs := Padded(d.outs, n + 1)[n := u.txout]),
     (u.height != 0 <==> IsPruned(c)) && !(Avail(d.outs, n) && !isMint(d.outs[n].script)))
  }

  /** Undoes one spend, as disconnecting a block does for each input. */
  method UndoSpend(coins: Coins, undo: Undo, n: nat, isMint: seq<Byte> -> bool) returns (r: Coins, fClean: bool)
    ensures (r, fClean) == Restored(coins, undo, n, isMint)
  {
    hide IsPruned;
    r, fClean := coins, true;
    if undo.height != 0 {
      if !IsPruned(r) {
        fClean := false;
      }
      r := NO_COINS;
      r := r.(coinBase := undo.coinBase, height := undo.height, version := undo.version);
    } else if IsPruned(r) {
      fClean := false;
    }
    if Avail(r.outs, n) && !isMint(r.outs[n].script) {
      fClean := false;
    }
    if |r.outs| < n + 1 {
      r := r.(outs := Padded(r.outs, n + 1));
    }
    r := r.(outs := r.outs[n := undo.txout]);
  }

  /** The coins that are found for the undo: spent entirely, they may be gone from the cache (not `kept`) by then. */
  function Reopened(c: Coins, kept: bool): Coins
  {
    if c.outs == [] && !kept then NO_COINS else c
  }

  // ----- when two coins have the same unspent outputs

  ghost predicate SameOuts(a: seq<TxOut>, b: seq<TxOut>)
  {
    forall i: nat :: (Avail(a, i) <==> Avail(b, i)) && (Avail(a, i) ==> a[i] == b[i])
  }

  ghost predicate SameMeta(a: Coins, b: Coins)
  {
    a.coinBase == b.coinBase && a.coinStake == b.coinStake && a.height == b.height && a.version == b.version
  }

  lemma LastAvail(outs: seq<TxOut>)
    ensures forall i :: i >= |TrimOuts(outs)| ==> !Avail(outs, i)
    ensures TrimOuts(outs) != [] ==> Avail(outs, |TrimOuts(outs)| - 1)
  {
    TrimOutsIs(outs);
  }

  /** Cleaned coins are equal exactly when the unspent outputs and the rest are. */
  lemma CleanSame(a: Coins, b: Coins)
    ensures Clean(a) == Clean(b) <==> SameMeta(a, b) && SameOuts(a.outs, b.outs)
  {
    hide TrimOuts, Avail;
    LastAvail(a.outs);
    LastAvail(b.outs);
    if SameOuts(a.outs, b.outs) {
      var k, m := |TrimOuts(a.outs)|, |TrimOuts(b.outs)|;
      assert k > 0 ==> Avail(b.outs, k - 1);
      assert m > 0 ==> Avail(a.outs, m - 1);
      assert k == m;
      assert Cleared(a.outs, k) == Cleared(b.outs, m);
    }
    if Clean(a) == Clean(b) {
      ClearedHas(a.outs, |TrimOuts(a.outs)|);
      ClearedHas(b.outs, |TrimOuts(b.outs)|);
    }
  }

  lemma ClearedHas(outs: seq<TxOut>, n: nat)
    requires forall i :: i >= n ==> !Avail(outs, i)
    ensures SameOuts(Cleared(outs, n), outs)
  {
  }

  lemma TrimSame(outs: seq<TxOut>)
    ensures SameOuts(TrimOuts(outs), outs)
  {
    LastAvail(outs);
    TrimOutsIs(outs);
  }

  lemma PrunedIs(c: Coins)
    ensures IsPruned(c) <==> forall i: nat :: !Avail(c.outs, i)
    ensures IsTrimmed(c) ==> (IsPruned(c) <==> c.outs == [])
  {
    if i: nat :| Avail(c.outs, i) { assert !IsNull(c.outs[i]); }
    if !IsPruned(c) {
      var i :| 0 <= i < |c.outs| && !IsNull(c.outs[i]);
      assert Avail(c.outs, i);
    }
    if IsTrimmed(c) && c.outs != [] { assert Avail(c.outs, |c.outs| - 1); }
  }

  // ----- one spend

  lemma SpentOuts(c: Coins, n: nat)
    requires Avail(c.outs, n)
    ensures var d := Spent(c, n).value.0;
      IsTrimmed(d) && SameMeta(c, d)
      && forall i: nat :: (Avail(d.outs, i) <==> i != n && Avail(c.outs, i)) && (Avail(d.outs, i) ==> d.outs[i] == c.outs[i])
  {
    var outs := c.outs[n := NULL_OUT];
    TrimSame(outs);
    TrimKeeps(c.(outs := outs));
    assert forall i: nat :: (Avail(outs, i) <==> i != n && Avail(c.outs, i));
    hide TrimOuts;
  }

  lemma PaddedOuts(outs: seq<TxOut>, n: nat, o: TxOut)
    requires !IsNull(o)
    ensures forall i: nat :: (Avail(Padded(outs, n + 1)[n := o], i) <==> i == n || Avail(outs, i))
    ensures forall i: nat :: Avail(Padded(outs, n + 1)[n := o], i) ==>
      Padded(outs, n + 1)[n := o][i] == if i == n then o else outs[i]
  {
    var p := Padded(outs, n + 1);
    var r := p[n := o];
    forall i: nat ensures Avail(p, i) <==> Avail(outs, i) {}
    forall i: nat ensures (Avail(r, i) <==> i == n || Avail(outs, i)) && (Avail(r, i) ==> r[i] == if i == n then o else outs[i]) {
      assert i != n ==> (Avail(r, i) <==> Avail(p, i));
    }
  }

  /** What undoing does to the rest of the coins, when the spend has left `d`. */
  function Survivor(c: Coins, d: Coins, kept: bool): Coins
  {
    if d.outs != [] then c
    else if c.height != 0 then c.(coinStake := false)
    else if kept then c
    else c.(coinBase := false, coinStake := false, version := 0)
  }

  /** Undoing a spend brings back its output; of the rest of the coins, what `Survivor` says. */
  lemma UndoOne(c: Coins, n: nat, kept: bool, isMint: seq<Byte> -> bool)
    requires Avail(c.outs, n)
    ensures var (d, u) := Spent(c, n).value;
      var (r, fine) := Restored(Reopened(d, kept), u, n, isMint);
      Clean(r) == Clean(Survivor(c, d, kept)) && (fine <==> d.outs != [] || c.height != 0)
  {
    hide Clean, Avail, IsPruned, Padded, TrimOuts;
    SpentOuts(c, n);
    SpentUndo(c, n);
    hide Spent;
    var (d, u) := Spent(c, n).value;
    var x := Reopened(d, kept);
    var e := if u.height != 0 then Coins(u.coinBase, false, [], u.height, u.version) else x;
    NotNull(c.outs, n);
    NothingAvail();
    PrunedIs(x);
    PrunedIs(d);
    PaddedOuts(e.outs, n, u.txout);
    var r := Restored(x, u, n, isMint).0;
    assert SameOuts(r.outs, c.outs) by { AvailAgain(c.outs, d.outs, e.outs, r.outs, n, u.txout); }
    CleanSame(r, Survivor(c, d, kept));
  }

  lemma AvailAgain(c: seq<TxOut>, d: seq<TxOut>, e: seq<TxOut>, r: seq<TxOut>, n: nat, o: TxOut)
    requires Avail(c, n) && o == c[n] && e == d
    requires forall i: nat :: (Avail(d, i) <==> i != n && Avail(c, i)) && (Avail(d, i) ==> d[i] == c[i])
    requires forall i: nat :: (Avail(r, i) <==> i == n || Avail(e, i)) && (Avail(r, i) ==> r[i] == if i == n then o else e[i])
    ensures SameOuts(r, c)
  {
  }

  lemma NotNull(outs: seq<TxOut>, n: nat)
    requires Avail(outs, n)
    ensures !IsNull(outs[n])
  {
  }

  lemma NothingAvail()
    ensures forall i: nat :: !Avail([], i)
    ensures IsTrimmed(NO_COINS)
  {
  }

  lemma SpentUndo(c: Coins, n: nat)
    requires Avail(c.outs, n)
    ensures var (d, u) := Spent(c, n).value;
      u == if d.outs == [] then Undo(c.outs[n], c.coinBase, c.coinStake, c.height, c.version) else OutOnly(c.outs[n])
  {
    hide TrimOuts;
  }

  // ----- any number of spends, undone in reverse order

  /** Spends outputs one after another. */
  function SpentAll(c: Coins, ns: seq<nat>): Option<(Coins, seq<Undo>)>
    decreases |ns|
  {
    if ns == [] then Some((c, []))
    else
      match Spent(c, ns[0])
      case None => None
      case Some((d, u)) =>
        match SpentAll(d, ns[1..])
        case None => None
        case Some((last, us)) => Some((last, [u] + us))
  }

  function RestoredAll(c: Coins, us: seq<Undo>, ns: seq<nat>, isMint: seq<Byte> -> bool): (Coins, bool)
    requires |us| == |ns|
  {
    if ns == [] then (c, true)
    else
      var (d, fine) := RestoredAll(c, us[1..], ns[1..], isMint);
      var (r, fine0) := Restored(d, us[0], ns[0], isMint);
      (r, fine && fine0)
  }

  lemma {:induction false} SpentAllLength(c: Coins, ns: seq<nat>)
    ensures SpentAll(c, ns).Some? ==> |SpentAll(c, ns).value.1| == |ns|
    decreases |ns|
  {
    if ns != [] && Spent(c, ns[0]).Some? { SpentAllLength(Spent(c, ns[0]).value.0, ns[1..]); }
  }

  /** Undoing depends only on the unspent outputs and the rest, not on what is left in spent outputs. */
  lemma RestoredSame(a: Coins, b: Coins, u: Undo, n: nat, isMint: seq<Byte> -> bool)
    requires Clean(a) == Clean(b) && !IsNull(u.txout)
    ensures Clean(Restored(a, u, n, isMint).0) == Clean(Restored(b, u, n, isMint).0)
    ensures Restored(a, u, n, isMint).1 == Restored(b, u, n, isMint).1
  {
    CleanSame(a, b);
    PrunedIs(a);
    PrunedIs(b);
    PaddedOuts(a.outs, n, u.txout);
    PaddedOuts(b.outs, n, u.txout);
    PaddedOuts([], n, u.txout);
    CleanSame(Restored(a, u, n, isMint).0, Restored(b, u, n, isMint).0);
    hide Clean, Avail, IsPruned, Padded;
  }

  ghost predicate Undone(c: Coins, ns: seq<nat>, kept: bool, isMint: seq<Byte> -> bool)
    requires SpentAll(c, ns).Some? && |SpentAll(c, ns).value.1| == |ns|
  {
    var (last, us) := SpentAll(c, ns).value;
    var (r, fine) := RestoredAll(Reopened(last, kept), us, ns, isMint);
    Clean(r) == Clean(Survivor(c, last, kept)) && (fine <==> last.outs != [] || c.height != 0)
  }

  /**
   * Undoing any series of spends of a transaction's outputs brings every output back, and the rest of the coins
   * as `Survivor` says. Disconnecting finds it in order unless the spends left nothing of coins of height zero.
   */
  lemma {:induction false} UndoAll(c: Coins, ns: seq<nat>, kept: bool, isMint: seq<Byte> -> bool)
    requires ns != [] && SpentAll(c, ns).Some?
    ensures |SpentAll(c, ns).value.1| == |ns| && Undone(c, ns, kept, isMint)
    decreases |ns|
  {
    hide Spent, Clean, Restored, Avail;
    SpentAllLength(c, ns);
    SpendsAre(c, ns[0]);
    assert SpentAll(Spent(c, ns[0]).value.0, ns[1..]).Some?;
    var (d, u) := Spent(c, ns[0]).value;
    UndoOne(c, ns[0], kept, isMint);
    if |ns| == 1 {
      assert SpentAll(d, ns[1..]) == Some((d, []));
      assert [u] + [] == [u] && [u][1..] == [];
      assert RestoredAll(Reopened(d, kept), [], ns[1..], isMint) == (Reopened(d, kept), true);
    } else {
      UndoAll(d, ns[1..], kept, isMint);
      UndoFirst(c, ns, kept, isMint);
    }
  }

  lemma SpendsAre(c: Coins, n: nat)
    requires Spent(c, n).Some?
    ensures Avail(c.outs, n)
  {
  }

  /** More than one spend: the first leaves something, and undoing it adds its output to what the others left. */
  lemma UndoFirst(c: Coins, ns: seq<nat>, kept: bool, isMint: seq<Byte> -> bool)
    requires |ns| > 1 && SpentAll(c, ns).Some? && |SpentAll(c, ns).value.1| == |ns|
    requires var d := Spent(c, ns[0]).value.0;
      |SpentAll(d, ns[1..]).value.1| == |ns| - 1 && Undone(d, ns[1..], kept, isMint)
    ensures Undone(c, ns, kept, isMint)
  {
    hide Clean, Restored, Spent, Avail;
    var n := ns[0];
    var (d, u) := Spent(c, n).value;
    var (last, us) := SpentAll(d, ns[1..]).value;
    SpendsAre(c, n);
    SpendsAre(d, ns[1]);
    SpentOuts(c, n);
    SpentUndo(c, n);
    NotNull(c.outs, n);
    SomethingLeft(d, ns[1]);
    var (r, fine) := RestoredAll(Reopened(last, kept), us, ns[1..], isMint);
    assert SpentAll(c, ns).value == (last, [u] + us);
    assert ([u] + us)[1..] == us;
    RestoredSame(r, Survivor(d, last, kept), u, n, isMint);
    UndoOnTop(c, Survivor(d, last, kept), Survivor(c, last, kept), n, isMint);
  }

  lemma SomethingLeft(d: Coins, n: nat)
    requires Avail(d.outs, n)
    ensures d.outs != []
  {
  }

  /** Adding output `n` to coins that lack only it, and have something left. */
  lemma UndoOnTop(c: Coins, s: Coins, t: Coins, n: nat, isMint: seq<Byte> -> bool)
    requires Avail(c.outs, n) && SameMeta(s, t) && t.outs == c.outs && s.outs != [] && IsTrimmed(s)
    requires forall i: nat :: (Avail(s.outs, i) <==> i != n && Avail(c.outs, i)) && (Avail(s.outs, i) ==> s.outs[i] == c.outs[i])
    ensures Clean(Restored(s, OutOnly(c.outs[n]), n, isMint).0) == Clean(t)
    ensures Restored(s, OutOnly(c.outs[n]), n, isMint).1
  {
    NotNull(c.outs, n);
    PrunedIs(s);
    PaddedOuts(s.outs, n, c.outs[n]);
    var r := Restored(s, OutOnly(c.outs[n]), n, isMint).0;
    AvailAgain(c.outs, s.outs, s.outs, r.outs, n, c.outs[n]);
    CleanSame(r, t);
    hide Clean, Avail, IsPruned, Padded;
  }

  /**
   * So spending and undoing gives the coins back exactly when something was left unspent, or the coins are not a
   * coinstake's and have a height, or, at height zero, the emptied entry was kept or had nothing to lose. The
   * coinstake flag is recorded when the last output is spent, but disconnecting a block does not restore it.
   */
  lemma UndoIsExact(c: Coins, ns: seq<nat>, kept: bool, isMint: seq<Byte> -> bool)
    requires ns != [] && SpentAll(c, ns).Some?
    ensures |SpentAll(c, ns).value.1| == |ns|
    ensures var (last, us) := SpentAll(c, ns).value;
      Clean(RestoredAll(Reopened(last, kept), us, ns, isMint).0) == Clean(c) <==>
        last.outs != [] || (if c.height != 0 then !c.coinStake else kept || (!c.coinBase && !c.coinStake && c.version == 0))
  {
    UndoAll(c, ns, kept, isMint);
    CleanSame(Survivor(c, SpentAll(c, ns).value.0, kept), c);
    hide SpentAll, RestoredAll, Clean, Reopened, Avail;
  }

  /** As long as one output is never spent, undoing gives everything back: it cannot be the emptied record's undo. */
  lemma {:induction false} UnspentRemains(c: Coins, ns: seq<nat>, n: nat)
    requires SpentAll(c, ns).Some? && Avail(c.outs, n) && n !in ns
    ensures Avail(SpentAll(c, ns).value.0.outs, n)
    decreases |ns|
  {
    if ns != [] {
      hide Avail;
      SpendsAre(c, ns[0]);
      SpentOuts(c, ns[0]);
      hide Spent;
      UnspentRemains(Spent(c, ns[0]).value.0, ns[1..], n);
    }
  }

  /** The first output of a coinstake transaction is empty, which marks it, and there is another. */
  predicate IsMarked(outs: seq<TxOut>)
  {
    |outs| >= 2 && outs[0] == TxOut(0, [])
  }

  /** Spends of a coinstake transaction's outputs are undone exactly as long as the marker output is not spent. */
  lemma MarkerKeepsStake(c: Coins, ns: seq<nat>, kept: bool, isMint: seq<Byte> -> bool)
    requires ns != [] && SpentAll(c, ns).Some? && IsMarked(c.outs) && 0 !in ns
    ensures |SpentAll(c, ns).value.1| == |ns|
    ensures var (last, us) := SpentAll(c, ns).value; Clean(RestoredAll(Reopened(last, kept), us, ns, isMint).0) == Clean(c)
  {
    UnspentRemains(c, ns, 0);
    SomethingLeft(SpentAll(c, ns).value.0, 0);
    hide Clean, RestoredAll, SpentAll, Reopened, Avail;
    UndoIsExact(c, ns, kept, isMint);
  }

  // The coins of a coinstake transaction, on which undoing is not exact: both outputs are spent, the marker last.

  const MARKER: TxOut := TxOut(0, [])
  const STAKE: Coins := Coins(false, true, [MARKER, TxOut(5, [1])], 7, 1)

  lemma StakeIsSpent()
    ensures SpentAll(STAKE, [1, 0]).Some? && SpentAll(STAKE, [1, 0]).value.0.outs == []
  {
    hide TrimOuts, SpentAll;
    assert STAKE.outs[1 := NULL_OUT] == [MARKER, NULL_OUT];
    TrimIs([MARKER, NULL_OUT], 1);
    assert [MARKER, NULL_OUT][..1] == [MARKER];
    var d := Spent(STAKE, 1).value.0;
    assert d.outs == [MARKER];
    assert [MARKER][0 := NULL_OUT] == [NULL_OUT];
    TrimIs([NULL_OUT], 0);
    assert [NULL_OUT][..0] == [];
    SpentTwo(STAKE, 1, 0);
  }

  lemma SpentTwo(c: Coins, m: nat, n: nat)
    requires Spent(c, m).Some? && Spent(Spent(c, m).value.0, n).Some?
    ensures SpentAll(c, [m, n]).Some? && SpentAll(c, [m, n]).value.0 == Spent(Spent(c, m).value.0, n).value.0
  {
    hide Spent;
    var d := Spent(c, m).value.0;
    assert [m, n][1..] == [n] && [n][1..] == [];
    assert SpentAll(d, [n]).Some? && SpentAll(d, [n]).value.0 == Spent(d, n).value.0 by {
      assert SpentAll(Spent(d, n).value.0, []) == Some((Spent(d, n).value.0, []));
    }
  }

  lemma StakeIsClean()
    ensures Clean(STAKE.(coinStake := false)) == STAKE.(coinStake := false)
  {
    var outs := STAKE.outs;
    TrimIs(outs, 2);
    assert outs[..2] == outs && Cleared(outs, 2) == outs;
    hide TrimOuts;
  }

  lemma StakeFlagIsLost(kept: bool, isMint: seq<Byte> -> bool)
    ensures IsMarked(STAKE.outs) && STAKE.coinStake
    ensures SpentAll(STAKE, [1, 0]).Some? && |SpentAll(STAKE, [1, 0]).value.1| == 2
    ensures var (last, us) := SpentAll(STAKE, [1, 0]).value;
      var (r, fine) := RestoredAll(Reopened(last, kept), us, [1, 0], isMint);
      fine && Clean(r) == STAKE.(coinStake := false)
  {
    hide SpentAll, RestoredAll, Clean, Reopened;
    StakeIsSpent();
    StakeIsClean();
    UndoAll(STAKE, [1, 0], kept, isMint);
  }
}
