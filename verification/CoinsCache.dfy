/**
 * The coin database and the caches on top of it as classes. A cache's base is another cache or, at the bottom,
 * the database; the view a cache stands for is the value that module CoinsViews is about.
 */
module CoinsCache {
  import opened Coins
  import opened CoinsViews
  import opened Wrappers

  class CCoinsViewDB {
    var coins: map<TxId, Coins>
    var hashBestChain: nat

    constructor ()
      ensures V() == Disk(map[], 0)
    {
      coins, hashBestChain := map[], 0;
    }

    ghost function V(): View
      reads this
    {
      Disk(coins, hashBestChain)
    }

    method BatchWrite(mapCoins: map<TxId, Entry>, hashBlock: nat)
      modifies this
      ensures V() == CoinsViews.BatchWrite(old(V()), mapCoins, hashBlock)
    {
      hide Stored, Trim, IsPruned, SplitInto;
      SplitStart(mapCoins);
      var rest := mapCoins;
      ghost var written: map<TxId, Entry> := map[];
      StoredNothing(coins);
      while rest != map[]
        invariant SplitInto(mapCoins, written, rest)
        invariant coins == Stored(written, old(coins)) && hashBestChain == old(hashBestChain)
        decreases |rest|
      {
        var id :| id in rest;
        SplitNext(mapCoins, written, rest, id);
        StoredNext(written, old(coins), id, rest[id]);
        if rest[id].isDirty {
          if IsPruned(rest[id].coins) {
            coins := coins - {id};
          } else {
            coins := coins[id := Trim(rest[id].coins)];
          }
        }
        written := written[id := rest[id]];
        rest := rest - {id};
      }
      SplitEnd(mapCoins, written);
      if hashBlock != 0 {
        hashBestChain := hashBlock;
      }
    }
  }

  ghost predicate SplitInto<T>(m: map<TxId, T>, done: map<TxId, T>, rest: map<TxId, T>)
  {
    && (forall k :: k in m <==> k in done || k in rest)
    && (forall k :: k in done ==> k !in rest && done[k] == m[k])
    && (forall k :: k in rest ==> rest[k] == m[k])
  }

  lemma SplitNext<T>(m: map<TxId, T>, done: map<TxId, T>, rest: map<TxId, T>, id: TxId)
    requires SplitInto(m, done, rest) && id in rest
    ensures SplitInto(m, done[id := rest[id]], rest - {id}) && id !in done && |rest - {id}| < |rest|
  {
    assert (rest - {id}).Keys == rest.Keys - {id};
    assert |rest.Keys| == |rest| && |(rest - {id}).Keys| == |rest - {id}|;
  }

  lemma SplitStart<T>(m: map<TxId, T>)
    ensures SplitInto(m, map[], m)
  {
  }

  lemma SplitEnd<T>(m: map<TxId, T>, done: map<TxId, T>)
    requires SplitInto(m, done, map[])
    ensures done == m
  {
  }

  lemma StoredNothing(coins: map<TxId, Coins>)
    ensures Stored(map[], coins) == coins
  {
  }

  lemma StoredNext(done: map<TxId, Entry>, coins: map<TxId, Coins>, id: TxId, e: Entry)
    requires id !in done
    ensures Stored(done[id := e], coins) ==
      var s := Stored(done, coins);
      if !e.isDirty then s else if IsPruned(e.coins) then s - {id} else s[id := Trim(e.coins)]
  {
    hide IsPruned, Trim;
  }

  lemma MergedNothing(own: map<TxId, Entry>)
    ensures Merged(map[], own) == own
  {
  }

  lemma MergedNext(done: map<TxId, Entry>, own: map<TxId, Entry>, id: TxId, e: Entry)
    requires id !in done
    ensures At(Merged(done, own), id) == At(own, id)
    ensures Merged(done[id := e], own) ==
      match Merge(Some(e), At(own, id))
      case None => Merged(done, own) - {id}
      case Some(u) => Merged(done, own)[id := u]
  {
    hide Merge;
    assert Merge(None, At(own, id)) == At(own, id) by { MergeNone(At(own, id)); }
  }

  lemma MergeNone(own: Option<Entry>)
    ensures Merge(None, own) == own
  {
  }

  class CCoinsViewCache {
    const base: CCoinsViewCache?
    const db: CCoinsViewDB
    // The caches from the one on the database up to this one.
    ghost const chain: seq<CCoinsViewCache>

    var hasModifier: bool
    var hashBlock: nat
    var cacheCoins: map<TxId, Entry>

    ghost predicate Linked()
      decreases |chain|
    {
      && |chain| > 0 && chain[|chain| - 1] == this && this !in chain[..|chain| - 1]
      && (base == null <==> |chain| == 1)
      && (base != null ==> base.chain == chain[..|chain| - 1] && base.db == db && base.Linked())
    }

    ghost function V(): View
      requires Linked()
      reads chain, db
      decreases |chain|
    {
      Cache(if base == null then db.V() else base.V(), cacheCoins, hashBlock)
    }

    /** The view is in order and no modification is going on, in this layer or below. */
    ghost predicate Valid()
      reads chain, db
    {
      Linked() && Ok(V()) && forall c :: c in chain ==> !c.hasModifier
    }

    constructor (baseIn: CCoinsViewCache?, dbIn: CCoinsViewDB)
      requires if baseIn == null then Ok(dbIn.V()) else baseIn.db == dbIn && baseIn.Valid()
      ensures Valid() && base == baseIn && db == dbIn
      ensures V() == Cache(if baseIn == null then dbIn.V() else baseIn.V(), map[], 0)
      ensures chain == (if baseIn == null then [] else baseIn.chain) + [this]
    {
      base, db := baseIn, dbIn;
      chain := (if baseIn == null then [] else baseIn.chain) + [this];
      hasModifier, hashBlock, cacheCoins := false, 0, map[];
    }

    /** What the base has for a transaction. */
    method BaseGetCoins(txid: TxId) returns (found: bool, coins: Coins)
      requires Valid()
      modifies chain
      ensures Linked() && forall c :: c in chain ==> !c.hasModifier
      ensures V() == old(V()).(parent := Fetch(old(V()).parent, txid).0)
      ensures Fetch(old(V()).parent, txid).1 == if found then Some(coins) else None
      ensures !found ==> coins == NO_COINS
      decreases |chain|, 0
    {
      if base == null {
        found := txid in db.coins;
        coins := if found then db.coins[txid] else NO_COINS;
      } else {
        found, coins := base.FetchCoins(txid);
        if !found {
          coins := NO_COINS;
        }
      }
    }

    method FetchCoins(txid: TxId) returns (found: bool, coins: Coins)
      requires Valid()
      modifies chain
      ensures Valid()
      ensures (V(), if found then Some(coins) else None) == Fetch(old(V()), txid)
      decreases |chain|, 1
    {
      FetchIsRight(V(), txid);
      hide Ok;
      if txid in cacheCoins {
        return true, cacheCoins[txid].coins;
      }
      found, coins := BaseGetCoins(txid);
      if found {
        cacheCoins := cacheCoins[txid := Entry(coins, false, IsPruned(coins))];
      }
    }

    method GetCoins(txid: TxId) returns (found: bool, coins: Coins)
      requires Valid()
      modifies chain
      ensures Valid() && SameLevels(old(V()), V())
      ensures Find(V(), txid) == if found then Unpruned(coins) else None
    {
      FetchIsRight(V(), txid);
      found, coins := FetchCoins(txid);
    }

    method HaveCoins(txid: TxId) returns (have: bool)
      requires Valid()
      modifies chain
      ensures Valid() && SameLevels(old(V()), V())
      ensures have <==> Find(V(), txid).Some?
    {
      HaveCoinsIsRight(V(), txid);
      FetchIsRight(V(), txid);
      var found, coins := FetchCoins(txid);
      have := found && coins.outs != [];
    }

    /** Opens an entry for modification; until EndModify there may be no other. */
    method ModifyCoins(txid: TxId) returns (coins: Coins)
      requires Valid()
      modifies chain
      ensures Linked() && hasModifier && V() == Open(old(V()), txid) && Ok(V())
      ensures txid in cacheCoins && cacheCoins[txid].isDirty && coins == cacheCoins[txid].coins
      ensures Find(old(V()), txid) == Unpruned(coins)
      ensures forall c :: c in chain && c != this ==> !c.hasModifier
    {
      OpenIsRight(V(), txid);
      OpenIs(V(), txid);
      hide Ok, Find, SameLevels, Open, Fetch, IsPruned;
      assert !hasModifier;
      var entry;
      if txid in cacheCoins {
        entry := cacheCoins[txid];
      } else {
        var found, c := BaseGetCoins(txid);
        entry := Entry(c, false, !found || IsPruned(c));
      }
      coins := entry.coins;
      cacheCoins := cacheCoins[txid := entry.(isDirty := true)];
      hasModifier := true;
    }

    /** The end of a modification, with the coins it has left. */
    method EndModify(txid: TxId, coins: Coins)
      requires Linked() && Ok(V()) && hasModifier && txid in cacheCoins && cacheCoins[txid].isDirty
      requires forall c :: c in chain && c != this ==> !c.hasModifier
      modifies this
      ensures Valid() && V() == Close(old(V()), txid, coins)
    {
      CloseIsRight(V(), txid, coins);
      hide IsPruned, Trim, Find, Ok, Unpruned;
      hasModifier := false;
      var c := Cleanup(coins);
      if cacheCoins[txid].isFresh && IsPruned(c) {
        cacheCoins := cacheCoins - {txid};
      } else {
        cacheCoins := cacheCoins[txid := cacheCoins[txid].(coins := c)];
      }
    }

    method SetBestBlock(hashBlockIn: nat)
      requires Valid()
      modifies this
      ensures Valid() && V() == old(V()).(hash := hashBlockIn)
    {
      hashBlock := hashBlockIn;
    }

    method GetBestBlock() returns (best: nat)
      requires Valid()
      modifies chain
      ensures Valid() && V() == ReadBest(old(V())) && best == Best(V()) == Best(old(V()))
      decreases |chain|
    {
      ReadBestIsRight(V());
      if hashBlock == 0 {
        if base == null {
          hashBlock := db.hashBestChain;
        } else {
          hashBlock := base.GetBestBlock();
        }
      }
      best := hashBlock;
    }

    /** Takes over the entries that a child cache has changed. */
    method BatchWrite(mapCoins: map<TxId, Entry>, hashBlockIn: nat)
      requires Linked() && !hasModifier && MayWrite(V(), mapCoins)
      modifies this
      ensures V() == CoinsViews.BatchWrite(old(V()), mapCoins, hashBlockIn) && !hasModifier
    {
      hide Merged, Merge, IsPruned, SplitInto;
      SplitStart(mapCoins);
      var rest := mapCoins;
      ghost var written: map<TxId, Entry> := map[];
      MergedNothing(cacheCoins);
      while rest != map[]
        invariant SplitInto(mapCoins, written, rest)
        invariant cacheCoins == Merged(written, old(cacheCoins)) && hashBlock == old(hashBlock) && !hasModifier
        decreases |rest|
      {
        var id :| id in rest;
        SplitNext(mapCoins, written, rest, id);
        SplitHas(mapCoins, written, rest, id);
        MergedNext(written, old(cacheCoins), id, rest[id]);
        MergeIs(rest[id], At(cacheCoins, id));
        var child := rest[id];
        if child.isDirty {
          if id !in cacheCoins {
            if !IsPruned(child.coins) {
              assert child.isFresh;
              cacheCoins := cacheCoins[id := Entry(child.coins, true, true)];
            }
          } else if cacheCoins[id].isFresh && IsPruned(child.coins) {
            cacheCoins := cacheCoins - {id};
          } else {
            cacheCoins := cacheCoins[id := cacheCoins[id].(coins := child.coins, isDirty := true)];
          }
        }
        written := written[id := rest[id]];
        rest := rest - {id};
      }
      SplitEnd(mapCoins, written);
      hashBlock := hashBlockIn;
    }

    /** Hands all changes to the base and empties the cache. */
    method Flush()
      requires Valid()
      modifies chain, db
      ensures Valid() && V() == CoinsViews.Flush(old(V()))
      ensures forall k :: Find(V(), k) == Find(old(V()), k) && Find(V().parent, k) == Find(old(V()), k)
    {
      FlushIsRight(V());
      if base == null {
        db.BatchWrite(cacheCoins, hashBlock);
      } else {
        assert base.Linked() && base.chain[|chain| - 2] == base;
        base.BatchWrite(cacheCoins, hashBlock);
      }
      cacheCoins := map[];
    }
  }

  lemma OpenIs(v: View, id: TxId)
    requires v.Cache?
    ensures id in v.entries ==>
      Open(v, id) == v.(entries := v.entries[id := v.entries[id].(isDirty := true)])
    ensures id !in v.entries ==>
      var (below, r) := Fetch(v.parent, id);
      var e := match r case None => Entry(NO_COINS, true, true) case Some(c) => Entry(c, true, IsPruned(c));
      Open(v, id) == v.(parent := below, entries := v.entries[id := e])
  {
    hide Fetch, IsPruned;
  }

  lemma SplitHas<T>(m: map<TxId, T>, done: map<TxId, T>, rest: map<TxId, T>, id: TxId)
    requires SplitInto(m, done, rest) && id in rest
    ensures id in m && m[id] == rest[id]
  {
  }

  lemma MergeIs(child: Entry, own: Option<Entry>)
    ensures Merge(Some(child), own) ==
      if !child.isDirty then own
      else if own.None? then (if IsPruned(child.coins) then None else Some(Entry(child.coins, true, true)))
      else if own.value.isFresh && IsPruned(child.coins) then None
      else Some(own.value.(coins := child.coins, isDirty := true))
  {
  }
}
