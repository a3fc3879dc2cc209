/**
 * Every public operation of the address manager keeps its invariant, and what each achieves.
 */
module AddrOperations {
  import opened AddrTables
  import opened AddrInvariant

  // ----- clearing a slot of the new table

  /** From `t` to `u` nothing but random positions changed, except that entry `id` may differ or be gone. */
  ghost predicate OnlyTouches(t: Tables, u: Tables, id: int)
  {
    && u.idCount == t.idCount && u.triedAt == t.triedAt && u.nTried == t.nTried
    && (forall k :: k in t.info && k != id ==> k in u.info && SameEntry(t.info[k], u.info[k]))
    && (forall k :: k in u.info ==>
          k in t.info && u.info[k].addr == t.info[k].addr && u.info[k].inTried == t.info[k].inTried)
    && (forall a :: a in u.ids ==> a in t.ids && u.ids[a] == t.ids[a])
  }

  lemma DeleteTouches(t: Tables, id: int)
    requires RandomIndex(t.info, t.random) && id in t.info
    ensures OnlyTouches(t, Delete(t, id), id)
    ensures Delete(t, id).newAt == t.newAt && id !in Delete(t, id).info
  {
    hide *;
    SwapMovesLast(t, id);
    SwapIsPositional(t, t.info[id].randomPos, |t.random| - 1);
    DeleteIs(t, id);
    PositionalTouches(t, SwapRandom(t, t.info[id].randomPos, |t.random| - 1), Delete(t, id), id, t.info[id].addr.service.net);
  }

  lemma DeleteIs(t: Tables, id: int)
    requires id in t.info && t.random != []
    ensures var u, v := SwapRandom(t, t.info[id].randomPos, |t.random| - 1), Delete(t, id);
      && v.info == u.info - {id} && v.ids == u.ids - {t.info[id].addr.service.net} && v.newAt == u.newAt
      && v.triedAt == u.triedAt && v.idCount == u.idCount && v.nTried == u.nTried
  {
    hide SwapRandom;
  }

  lemma PositionalTouches(t: Tables, u: Tables, v: Tables, id: int, net: NetAddr)
    requires SameButPosition(t.info, u.info) && u == t.(info := u.info, random := u.random)
    requires v.info == u.info - {id} && v.ids == u.ids - {net}
    requires v.triedAt == u.triedAt && v.idCount == u.idCount && v.nTried == u.nTried
    ensures OnlyTouches(t, v, id)
  {
  }

  lemma UnlinkTouches(t: Tables, s: Slot)
    requires s in t.newAt && t.newAt[s] in t.info
    ensures OnlyTouches(t, Unlink(t, s), t.newAt[s])
  {
  }

  lemma TouchesTwice(t: Tables, u: Tables, v: Tables, id: int)
    requires OnlyTouches(t, u, id) && OnlyTouches(u, v, id)
    ensures OnlyTouches(t, v, id)
  {
    forall k | k in t.info && k != id ensures k in v.info && SameEntry(t.info[k], v.info[k]) {
      assert k in u.info && SameEntry(t.info[k], u.info[k]);
    }
    forall k | k in v.info ensures k in t.info && v.info[k].addr == t.info[k].addr && v.info[k].inTried == t.info[k].inTried {
      assert k in u.info;
    }
  }

  /** Clearing a slot costs its entry one reference, and its life if that was the last one. */
  lemma ClearNewEffect(e: Env, t: Tables, s: Slot, loose: set<int>, pending: int)
    requires Inv(e, t, loose, pending) && s in t.newAt && t.newAt[s] !in loose
    ensures Inv(e, ClearNew(t, s), loose, pending)
    ensures t.newAt[s] in t.info
    ensures OnlyTouches(t, ClearNew(t, s), t.newAt[s])
    ensures ClearNew(t, s).newAt == t.newAt - {s}
    ensures t.newAt[s] in ClearNew(t, s).info <==> t.info[t.newAt[s]].refCount > 1
  {
    var id, u := t.newAt[s], Unlink(t, s);
    UnlinkKeepsInv(e, t, s, loose, pending);
    UnlinkTouches(t, s);
    hide AddrIndex, TriedIndex, NewIndex, RefCounts, Entries, Referenced, Counted;
    if u.info[id].refCount == 0 {
      DeleteKeepsInv(e, u, id, loose + {id}, pending);
      DeleteTouches(u, id);
      TouchesTwice(t, u, Delete(u, id), id);
    } else {
      Tighten(e, u, id, loose + {id}, pending);
    }
    assert loose + {id} - {id} == loose;
  }

  // ----- moving an entry between the tables

  ghost predicate Unreferenced(t: Tables, ids: set<int>)
  {
    forall k :: k in ids && k in t.info ==> t.info[k].refCount == 0
  }

  /** A slot that is not free holds an entry with at least one reference. */
  lemma OccupantIsReferenced(e: Env, t: Tables, s: Slot, loose: set<int>, pending: int)
    requires Inv(e, t, loose, pending) && s in t.newAt && Unreferenced(t, loose)
    ensures t.newAt[s] !in loose
  {
    SlotEntry(e, t.info, t.newAt, s);
    hide Inv;
  }

  /** Clears a slot, whether or not it is free. */
  lemma ClearNewKeepsInv(e: Env, t: Tables, s: Slot, loose: set<int>, pending: int)
    requires Inv(e, t, loose, pending) && Unreferenced(t, loose)
    ensures Inv(e, ClearNew(t, s), loose, pending) && s !in ClearNew(t, s).newAt
    ensures ClearNew(t, s).triedAt == t.triedAt
    ensures forall k :: k in loose && k in t.info ==> k in ClearNew(t, s).info && SameEntry(t.info[k], ClearNew(t, s).info[k])
  {
    if s in t.newAt {
      OccupantIsReferenced(e, t, s, loose, pending);
      ClearNewEffect(e, t, s, loose, pending);
    }
  }

  /** Where the entry in tried slot `s` goes when it is evicted. */
  ghost function EvictedTo(e: Env, t: Tables, s: Slot): Slot
    requires s in t.triedAt && t.triedAt[s] in t.info
  {
    var i := t.info[t.triedAt[s]];
    NewSlot(e, i.addr.service, i.source)
  }

  lemma UntryState(e: Env, t: Tables, s: Slot, loose: set<int>, pending: int)
    requires Inv(e, t, loose, pending) && Unreferenced(t, loose) && s in t.triedAt
    ensures t.triedAt[s] in t.info && t.triedAt[s] !in loose && t.info[t.triedAt[s]].inTried
    ensures Inv(e, Untry(t, s), loose + {t.triedAt[s]}, pending + 1)
    ensures Unreferenced(Untry(t, s), loose + {t.triedAt[s]})
  {
    UntryKeepsInv(e, t, s, loose, pending);
    TriedIsUnreferenced(e, t, t.triedAt[s], loose, pending);
    hide AddrIndex, RandomIndex, TriedIndex, NewIndex, RefCounts, Entries, Counted;
  }

  /** An entry that was just taken out of the tried table is entered into the new table. */
  lemma SettleKeepsInv(e: Env, t: Tables, id: int, to: Slot, loose: set<int>, pending: int)
    requires Inv(e, t, loose + {id}, pending + 1) && id !in loose && to !in t.newAt
    requires id in t.info && !t.info[id].inTried && t.info[id].refCount == 0
    requires to == NewSlot(e, t.info[id].addr.service, t.info[id].source)
    ensures Inv(e, WithInfo(t, id, t.info[id].(refCount := 1)).(newAt := t.newAt[to := id], nNew := t.nNew + 1), loose, pending)
  {
    hide AddrIndex, RandomIndex, TriedIndex, NewIndex, RefCounts, Entries, Referenced, Counted, Inv;
    LinkKeepsInv(e, t, id, to, loose + {id}, pending + 1);
    assert loose + {id} - {id} == loose;
    Recount(e, Link(t, id, to), loose, pending + 1, 1);
  }

  lemma EvictKeepsInv(e: Env, t: Tables, s: Slot, loose: set<int>, pending: int)
    requires Inv(e, t, loose, pending) && Unreferenced(t, loose)
    ensures Inv(e, Evict(e, t, s), loose, pending)
    ensures s !in Evict(e, t, s).triedAt
    ensures forall k :: k in loose && k in t.info ==> k in Evict(e, t, s).info && SameEntry(t.info[k], Evict(e, t, s).info[k])
  {
    if s in t.triedAt { EvictOccupied(e, t, s, loose, pending); }
  }

  lemma EvictOccupied(e: Env, t: Tables, s: Slot, loose: set<int>, pending: int)
    requires Inv(e, t, loose, pending) && Unreferenced(t, loose) && s in t.triedAt
    ensures Inv(e, Evict(e, t, s), loose, pending)
    ensures s !in Evict(e, t, s).triedAt
    ensures forall k :: k in loose && k in t.info ==> k in Evict(e, t, s).info && SameEntry(t.info[k], Evict(e, t, s).info[k])
  {
    hide *;
    UntryState(e, t, s, loose, pending);
    UntryEntries(e, t, s);
    var id, to, u := t.triedAt[s], EvictedTo(e, t, s), Untry(t, s);
    IsUnreferenced(u, loose + {id}, id);
    ClearNewKeepsInv(e, u, to, loose + {id}, pending + 1);
    var v := ClearNew(u, to);
    LooseEntry(e, u, v, id, to);
    SettleKeepsInv(e, v, id, to, loose, pending);
    EvictIs(e, t, s);
  }

  lemma IsUnreferenced(t: Tables, ids: set<int>, id: int)
    requires Unreferenced(t, ids) && id in ids && id in t.info
    ensures t.info[id].refCount == 0
  {
  }

  lemma LooseEntry(e: Env, u: Tables, v: Tables, id: int, to: Slot)
    requires id in u.info && id in v.info && SameEntry(u.info[id], v.info[id]) && !u.info[id].inTried
    requires u.info[id].refCount == 0 && to == NewSlot(e, u.info[id].addr.service, u.info[id].source)
    ensures !v.info[id].inTried && v.info[id].refCount == 0 && to == NewSlot(e, v.info[id].addr.service, v.info[id].source)
  {
  }

  lemma UntryEntries(e: Env, t: Tables, s: Slot)
    requires s in t.triedAt && t.triedAt[s] in t.info
    ensures var id, u := t.triedAt[s], Untry(t, s);
      && s !in u.triedAt && id in u.info && !u.info[id].inTried && u.info[id].refCount == t.info[id].refCount
      && EvictedTo(e, t, s) == NewSlot(e, u.info[id].addr.service, u.info[id].source)
      && (forall k :: k in t.info && k != id ==> k in u.info && u.info[k] == t.info[k])
  {
    hide NewSlot;
  }

  lemma EvictIs(e: Env, t: Tables, s: Slot)
    requires s in t.triedAt && t.triedAt[s] in t.info
    ensures var id, to, u := t.triedAt[s], EvictedTo(e, t, s), ClearNew(Untry(t, s), EvictedTo(e, t, s));
      id in u.info ==>
        && Evict(e, t, s) == WithInfo(u, id, u.info[id].(refCount := 1)).(newAt := u.newAt[to := id], nNew := u.nNew + 1)
        && Evict(e, t, s).triedAt == u.triedAt && Evict(e, t, s).info == u.info[id := u.info[id].(refCount := 1)]
  {
    hide NewSlot, ClearNew, Untry;
  }

  lemma TakeOutKeepsInv(e: Env, t: Tables, id: int)
    requires Consistent(e, t) && id in t.info && !t.info[id].inTried
    ensures Inv(e, TakeOut(t, id), {id}, 1) && TakeOut(t, id).info[id].refCount == 0
  {
    hide AddrIndex, RandomIndex, TriedIndex, NewIndex, RefCounts, Entries, Referenced, Counted, Inv, Refs;
    UnlinkAllKeepsInv(e, t, id, {}, 0);
    assert {} + {id} == {id};
    Recount(e, UnlinkBelow(t, id, NEW_BUCKETS), {id}, 0, -1);
  }

  lemma MakeTriedKeepsInv(e: Env, t: Tables, id: int)
    requires Consistent(e, t) && id in t.info && !t.info[id].inTried
    ensures Consistent(e, MakeTried(e, t, id))
    ensures id in MakeTried(e, t, id).info && MakeTried(e, t, id).info[id].inTried
  {
    hide AddrIndex, RandomIndex, TriedIndex, NewIndex, RefCounts, Entries, Referenced, Counted, Inv, TriedSlot, Evict;
    var s := TriedSlot(e, t.info[id].addr.service);
    TakeOutKeepsInv(e, t, id);
    var v := TakeOut(t, id);
    EvictKeepsInv(e, v, s, {id}, 1);
    var w := Evict(e, v, s);
    TryKeepsInv(e, w, id, {id}, 1);
    assert {id} - {id} == {};
  }

  // ----- the public operations keep the invariant

  lemma FindIsSound(e: Env, t: Tables, net: NetAddr)
    requires Consistent(e, t)
    ensures Find(t, net).Some? <==> net in t.ids
    ensures Find(t, net).Some? ==> Find(t, net).value in t.info && t.info[Find(t, net).value].addr.service.net == net
    ensures Find(t, net).Some? ==> EntryOk(Find(t, net).value, t.info[Find(t, net).value], t.idCount)
  {
    hide RandomIndex, TriedIndex, NewIndex, RefCounts, Referenced, Counted;
  }

  /** Marking an address good keeps the invariant, whatever the clock says. */
  lemma GoodKeepsConsistent(e: Env, t: Tables, s: Service, time: int)
    requires Consistent(e, t)
    ensures Consistent(e, Good(e, t, s, time))
  {
    hide Inv, MakeTried;
    FindIsSound(e, t, s.net);
    var found := Find(t, s.net);
    if found.Some? && t.info[found.value].addr.service == s {
      var id := found.value;
      var i := t.info[id].(lastSuccess := time, lastTry := time, attempts := 0);
      UpdateKeepsInv(e, t, id, i, {}, 0);
      if !i.inTried { MakeTriedKeepsInv(e, MarkGood(t, id, time), id); }
    }
  }

  lemma AttemptKeepsConsistent(e: Env, t: Tables, s: Service, time: int)
    requires Consistent(e, t)
    ensures Consistent(e, Attempt(t, s, time))
  {
    hide AddrIndex, RandomIndex, TriedIndex, NewIndex, RefCounts, Entries, Referenced, Counted, Inv;
    FindIsSound(e, t, s.net);
    var found := Find(t, s.net);
    if found.Some? {
      var i := t.info[found.value];
      UpdateKeepsInv(e, t, found.value, i.(lastTry := time, attempts := i.attempts + 1), {}, 0);
    }
  }

  lemma ConnectedKeepsConsistent(e: Env, t: Tables, s: Service, time: int)
    requires Consistent(e, t)
    ensures Consistent(e, Connected(t, s, time))
  {
    hide Inv;
    FindIsSound(e, t, s.net);
    var found := Find(t, s.net);
    if found.Some? {
      var i := t.info[found.value];
      UpdateKeepsInv(e, t, found.value, i.(addr := i.addr.(time := U32(time))), {}, 0);
    }
  }

  /** Storing a reference keeps the invariant; an entry without references may have been loose before. */
  lemma PlaceKeepsInv(e: Env, t: Tables, id: int, source: NetAddr, now: int)
    requires id in t.info && !t.info[id].inTried && 0 <= t.info[id].refCount < NEW_BUCKETS_PER_ADDRESS
    requires Inv(e, t, if t.info[id].refCount == 0 then {id} else {}, 0)
    ensures Consistent(e, Place(e, t, id, source, now))
  {
    var i, loose := t.info[id], if t.info[id].refCount == 0 then {id} else {};
    var s := NewSlot(e, i.addr.service, source);
    assert loose - {id} == {};
    if s !in t.newAt {
      LinkKeepsInv(e, t, id, s, loose, 0);
    } else {
      SlotEntry(e, t.info, t.newAt, s);
      hide Inv, NewSlot, ClearNew, Delete;
      if t.newAt[s] == id {
        assert loose == {};
      } else if Yields(t.info[t.newAt[s]], i.refCount, now) {
        ClearNewEffect(e, t, s, loose, 0);
        LinkKeepsInv(e, ClearNew(t, s), id, s, loose, 0);
      } else if i.refCount == 0 {
        DeleteKeepsInv(e, t, id, loose, 0);
      }
    }
  }

  lemma CreateNewKeepsInv(e: Env, t: Tables, addr: Address, source: NetAddr, penalty: int)
    requires Consistent(e, t) && addr.service.net !in t.ids
    ensures Inv(e, CreateNew(t, addr, source, penalty), {t.idCount}, 0)
    ensures t.idCount in CreateNew(t, addr, source, penalty).info
    ensures CreateNew(t, addr, source, penalty).info[t.idCount].refCount == 0
    ensures !CreateNew(t, addr, source, penalty).info[t.idCount].inTried
  {
    hide AddrIndex, RandomIndex, TriedIndex, NewIndex, RefCounts, Referenced, Counted;
    assert Entries(t.info, t.idCount);
    CreateKeepsInv(e, t, addr, source, {}, 0);
    var u, id := Create(t, addr, source), t.idCount;
    assert {} + {id} == {id};
    var i := u.info[id].(addr := addr.(time := U32(Max(0, addr.time - penalty))));
    UpdateKeepsInv(e, u, id, i, {id}, 1);
    Recount(e, WithInfo(u, id, i), {id}, 1, 1);
  }

  /** Adding an address keeps the invariant, whatever the hashes, the clock and the draw. */
  lemma AddKeepsConsistent(e: Env, t: Tables, addr: Address, source: NetAddr, penalty: int, now: int, draw: nat)
    requires Consistent(e, t)
    ensures Consistent(e, Add(e, t, addr, source, penalty, now, draw).0)
  {
    var net := addr.service.net;
    FindIsSound(e, t, net);
    hide Place, CreateNew, AddrIndex, RandomIndex, TriedIndex, NewIndex, RefCounts, Counted;
    if Find(t, net).None? {
      CreateNewKeepsInv(e, t, addr, source, penalty);
      PlaceKeepsInv(e, CreateNew(t, addr, source, penalty), t.idCount, source, now);
    } else {
      var id := Find(t, net).value;
      var i := Refreshed(t.info[id], addr, penalty, now);
      UpdateKeepsInv(e, t, id, i, {}, 0);
      var u := WithInfo(t, id, i);
      if WantsReference(u.info[id], addr, draw) {
        PlaceKeepsInv(e, u, id, source, now);
      }
    }
  }

  lemma ShuffleKeepsConsistent(e: Env, t: Tables, n: nat, draw: nat -> nat)
    requires Consistent(e, t) && n < |t.random|
    ensures Consistent(e, ShuffleAt(t, n, draw))
  {
    hide Inv, SwapRandom;
    SwapKeepsInv(e, t, n, draw(n) % (|t.random| - n) + n, {}, 0);
  }

  lemma EmptyIsConsistent(e: Env)
    ensures Consistent(e, EMPTY)
  {
    assert TriedIds(EMPTY.info) == {} && NewIds(EMPTY.info) == {};
  }
}
