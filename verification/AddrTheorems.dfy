/**
 * What the address manager promises: its consistency check passes, a good address ends up in the tried table,
 * and the addresses handed out are as many and as good as can be.
 */
module AddrTheorems {
  import opened AddrTables
  import opened AddrInvariant
  import opened AddrOperations
  import opened Wrappers

  // ----- the consistency check of the source

  /** The check returns zero; each condition is marked with the code returned when it fails. */
  ghost predicate CheckPasses(e: Env, t: Tables)
  {
    && |t.random| == t.nTried + t.nNew                                                      // -7
    && (forall id :: id in t.info ==> EntryPasses(t, id, t.info[id]))
    && |TriedIds(t.info)| == t.nTried                                                       // -9
    && |NewIds(t.info)| == t.nNew                                                           // -10
    && TriedSlotsPass(e, t.info, t.triedAt)
    && NewSlotsPass(e, t.info, t.newAt)
    && e.key != 0                                                                           // -16
  }

  ghost predicate TriedSlotsPass(e: Env, info: map<int, Info>, triedAt: map<Slot, int>)
  {
    && (forall s :: s in triedAt ==>
          && triedAt[s] in TriedIds(info)                                                   // -11
          && s == TriedSlot(e, info[triedAt[s]].addr.service))                              // -17, -18
    && (forall s, s' :: s in triedAt && s' in triedAt && triedAt[s] == triedAt[s'] ==> s == s')  // -11
    && (forall id :: id in TriedIds(info) ==> id in triedAt.Values)                         // -13
  }

  ghost predicate NewSlotsPass(e: Env, info: map<int, Info>, newAt: map<Slot, int>)
  {
    && (forall s: Slot :: s in newAt ==>
          && newAt[s] in NewIds(info)                                                       // -12
          && s == SlotIn(e, info[newAt[s]].addr.service, s.0))                              // -19
    && (forall id :: id in NewIds(info) ==> |Refs(newAt, id)| == info[id].refCount)         // -12, -15
  }

  ghost predicate EntryPasses(t: Tables, id: int, i: Info)
  {
    && (i.inTried ==> i.lastSuccess != 0)                                                   // -1
    && (i.inTried ==> i.refCount == 0)                                                      // -2
    && (!i.inTried ==> 0 <= i.refCount <= NEW_BUCKETS_PER_ADDRESS)                          // -3
    && (!i.inTried ==> i.refCount != 0)                                                     // -4
    && i.addr.service.net in t.ids && t.ids[i.addr.service.net] == id                       // -5
    && 0 <= i.randomPos < |t.random| && t.random[i.randomPos] == id                         // -14
    && i.lastTry >= 0                                                                       // -6
    && i.lastSuccess >= 0                                                                   // -8
  }

  ghost predicate Distinct(s: seq<int>)
  {
    forall i, j :: 0 <= i < j < |s| ==> s[i] != s[j]
  }

  lemma DistinctAppend(s: seq<int>, x: int)
    requires Distinct(s) && x !in s
    ensures Distinct(s + [x])
  {
  }

  lemma {:induction false} DistinctLength(s: seq<int>)
    requires Distinct(s)
    ensures |set x | x in s| == |s|
  {
    if s != [] {
      var rest := s[..|s| - 1];
      DistinctLength(rest);
      assert (set x | x in s) == (set x | x in rest) + {s[|s| - 1]};
    }
  }

  /** The random order lists every known id exactly once. */
  lemma RandomIsPermutation(info: map<int, Info>, random: seq<int>)
    requires RandomIndex(info, random)
    ensures Distinct(random)
    ensures (set id | id in random) == info.Keys && |random| == |info|
  {
    DistinctLength(random);
    forall id | id in info ensures id in random { assert random[info[id].randomPos] == id; }
    assert (set id | id in random) == info.Keys;
  }

  lemma SplitSizes(info: map<int, Info>)
    ensures |info| == |TriedIds(info)| + |NewIds(info)|
  {
    assert info.Keys == TriedIds(info) + NewIds(info);
    assert TriedIds(info) !! NewIds(info);
  }

  /** No time is before zero, and successes that count are after it. */
  predicate IsTimely(i: Info)
  {
    i.lastTry >= 0 && i.lastSuccess >= 0 && (i.inTried ==> i.lastSuccess > 0)
  }

  ghost predicate Timely(info: map<int, Info>)
  {
    forall id :: id in info ==> IsTimely(info[id])
  }

  lemma ConsistentEntriesPass(e: Env, t: Tables, id: int)
    requires Consistent(e, t) && id in t.info
    ensures EntryPasses(t, id, t.info[id]) <==> IsTimely(t.info[id])
  {
    if t.info[id].inTried { TriedIsUnreferenced(e, t, id, {}, 0); }
    hide TriedSlot, SlotIn, NewIndex, TriedIndex, Counted;
  }

  lemma ConsistentSlotsPass(e: Env, info: map<int, Info>, triedAt: map<Slot, int>, newAt: map<Slot, int>)
    requires TriedIndex(e, info, triedAt) && NewIndex(e, info, newAt) && RefCounts(info, newAt)
    ensures TriedSlotsPass(e, info, triedAt) && NewSlotsPass(e, info, newAt)
  {
    hide TriedSlot, SlotIn;
    forall id | id in TriedIds(info) ensures id in triedAt.Values {
      var s := TriedSlot(e, info[id].addr.service);
      assert s in triedAt && triedAt[s] == id;
    }
  }

  lemma KnownIds(e: Env, t: Tables)
    requires Consistent(e, t)
    ensures Distinct(t.random)
    ensures (set id | id in t.random) == t.info.Keys && |t.random| == |t.info|
    ensures |TriedIds(t.info)| == t.nTried && |NewIds(t.info)| == t.nNew && |t.random| == t.nTried + t.nNew
  {
    hide AddrIndex, TriedIndex, NewIndex, RefCounts, Entries, Referenced;
    RandomIsPermutation(t.info, t.random);
    SplitSizes(t.info);
  }

  /** Whatever satisfies the invariant passes the source's own check, given a key that is not null and sound times. */
  lemma ConsistentPassesCheck(e: Env, t: Tables)
    requires Consistent(e, t)
    ensures CheckPasses(e, t) <==> e.key != 0 && Timely(t.info)
  {
    ConsistentSlotsPass(e, t.info, t.triedAt, t.newAt);
    hide EntryPasses, AddrIndex, RandomIndex, TriedIndex, NewIndex, RefCounts, Entries, Referenced, Counted,
         TriedSlotsPass, NewSlotsPass, Inv, IsTimely;
    KnownIds(e, t);
    forall id | id in t.info ensures EntryPasses(t, id, t.info[id]) <==> IsTimely(t.info[id]) { ConsistentEntriesPass(e, t, id); }
  }

  // ----- handing out addresses

  ghost predicate Worthy(info: map<int, Info>, id: int, now: int)
  {
    id in info && !IsTerrible(info[id], now)
  }

  /** The worthy ids of a sequence, in its order. */
  ghost function WorthyIn(ids: seq<int>, info: map<int, Info>, now: int): seq<int>
  {
    if ids == [] then []
    else
      var rest := WorthyIn(ids[..|ids| - 1], info, now);
      if Worthy(info, ids[|ids| - 1], now) then rest + [ids[|ids| - 1]] else rest
  }

  lemma {:induction false} WorthyInIsFilter(ids: seq<int>, info: map<int, Info>, now: int)
    requires Distinct(ids)
    ensures forall id :: id in WorthyIn(ids, info, now) <==> id in ids && Worthy(info, id, now)
    ensures Distinct(WorthyIn(ids, info, now))
  {
    hide Worthy;
    if ids != [] {
      var rest, last := ids[..|ids| - 1], ids[|ids| - 1];
      WorthyInIsFilter(rest, info, now);
      assert ids == rest + [last];
      assert last !in rest;
      DistinctAppend(WorthyIn(rest, info, now), last);
    }
  }

  lemma {:induction false} WorthyInIgnoresPositions(ids: seq<int>, info: map<int, Info>, other: map<int, Info>, now: int)
    requires SameButPosition(info, other)
    ensures WorthyIn(ids, info, now) == WorthyIn(ids, other, now)
  {
    hide IsTerrible;
    if ids != [] {
      WorthyInIgnoresPositions(ids[..|ids| - 1], info, other, now);
      SameWorth(info, other, ids[|ids| - 1], now);
    }
  }

  lemma SameWorth(info: map<int, Info>, other: map<int, Info>, id: int, now: int)
    requires SameButPosition(info, other)
    ensures Worthy(info, id, now) <==> Worthy(other, id, now)
  {
    assert id in info ==> SameEntry(info[id], other[id]);
  }

  lemma SameButPositionTrans(a: map<int, Info>, b: map<int, Info>, c: map<int, Info>)
    requires SameButPosition(a, b) && SameButPosition(b, c)
    ensures SameButPosition(a, c)
  {
    assert forall id :: id in a ==> id in b && SameEntry(a[id], b[id]);
    assert forall id :: id in b ==> id in c && SameEntry(b[id], c[id]);
  }

  /** One round leaves the positions before `n` alone. */
  lemma ShuffleEffect(t: Tables, n: nat, draw: nat -> nat)
    requires n < |t.random|
    ensures ShuffleAt(t, n, draw).random[..n] == t.random[..n]
    ensures SameButPosition(t.info, ShuffleAt(t, n, draw).info)
  {
    SwapIsPositional(t, n, draw(n) % (|t.random| - n) + n);
  }

  /** `ids` are the worthy ones at the first positions, at all of them unless the limit was reached. */
  ghost predicate Chosen(u: Tables, ids: seq<int>, limit: nat, now: int)
  {
    && |ids| <= limit
    && exists m: nat :: ChosenUpTo(u, m, ids, now) && (|ids| < limit ==> m == |u.random|)
  }

  ghost predicate ChosenUpTo(u: Tables, m: nat, ids: seq<int>, now: int)
  {
    m <= |u.random| && ids == WorthyIn(u.random[..m], u.info, now)
  }

  lemma {:induction false} ChooseCorrect(e: Env, t: Tables, n: nat, chosen: seq<int>, draw: nat -> nat, now: int)
    requires Consistent(e, t) && ChosenUpTo(t, n, chosen, now) && |chosen| <= AddrLimit(|t.random|)
    ensures var (u, ids) := Choose(t, n, chosen, draw, now);
      && Consistent(e, u) && SameButPosition(t.info, u.info) && |u.random| == |t.random|
      && Chosen(u, ids, AddrLimit(|t.random|), now)
    decreases |t.random| - n
  {
    hide Consistent, SwapRandom, IsTerrible, ChosenUpTo, AddrLimit, SameButPosition;
    if n >= |t.random| || |chosen| >= AddrLimit(|t.random|) {
      ChosenAtEnd(t, n, chosen, now);
    } else {
      var u := ShuffleAt(t, n, draw);
      ShuffleKeepsConsistent(e, t, n, draw);
      ShuffleEffect(t, n, draw);
      NextRound(t, u, n, chosen, now);
      hide ShuffleAt, Chosen;
      var id := u.random[n];
      var next := if Worthy(u.info, id, now) then chosen + [id] else chosen;
      ChooseCorrect(e, u, n + 1, next, draw, now);
      SameButPositionTrans(t.info, u.info, Choose(u, n + 1, next, draw, now).0.info);
    }
  }

  lemma ChosenAtEnd(t: Tables, n: nat, chosen: seq<int>, now: int)
    requires ChosenUpTo(t, n, chosen, now) && |chosen| <= AddrLimit(|t.random|)
    requires n >= |t.random| || |chosen| >= AddrLimit(|t.random|)
    ensures Chosen(t, chosen, AddrLimit(|t.random|), now) && SameButPosition(t.info, t.info)
  {
  }

  lemma NextRound(t: Tables, u: Tables, n: nat, chosen: seq<int>, now: int)
    requires ChosenUpTo(t, n, chosen, now) && n < |t.random| == |u.random|
    requires u.random[..n] == t.random[..n] && SameButPosition(t.info, u.info)
    ensures ChosenUpTo(u, n + 1, if Worthy(u.info, u.random[n], now) then chosen + [u.random[n]] else chosen, now)
  {
    hide IsTerrible;
    WorthyInIgnoresPositions(t.random[..n], t.info, u.info, now);
    assert u.random[..n + 1][..n] == u.random[..n];
  }

  /**
   * The ids chosen are pairwise different, known and none of them terrible; there are at most 23 percent of
   * the known ones and at most 2500; and if there are fewer than that, no worthy entry was left out.
   */
  lemma GetAddrCorrect(e: Env, t: Tables, draw: nat -> nat, now: int)
    requires Consistent(e, t)
    ensures var (u, ids) := GetAddr(t, draw, now);
      && Consistent(e, u) && SameButPosition(t.info, u.info)
      && Distinct(ids)
      && (forall id :: id in ids ==> Worthy(t.info, id, now))
      && |ids| <= GETADDR_MAX && 100 * |ids| <= GETADDR_MAX_PCT * |t.info|
      && (|ids| < AddrLimit(|t.info|) ==> forall id :: Worthy(t.info, id, now) ==> id in ids)
  {
    assert ChosenUpTo(t, 0, [], now);
    hide Inv, SameButPosition, Worthy, ChosenUpTo, Choose;
    KnownIds(e, t);
    ChooseCorrect(e, t, 0, [], draw, now);
    var (u, ids) := Choose(t, 0, [], draw, now);
    KnownIds(e, u);
    ChosenAreWorthy(t.info, u, ids, AddrLimit(|t.random|), now);
  }

  lemma ChosenAreWorthy(info: map<int, Info>, u: Tables, ids: seq<int>, limit: nat, now: int)
    requires SameButPosition(info, u.info) && (set id | id in u.random) == u.info.Keys
    requires Distinct(u.random)
    requires Chosen(u, ids, limit, now)
    ensures Distinct(ids)
    ensures forall id :: id in ids ==> Worthy(info, id, now)
    ensures |ids| < limit ==> forall id :: Worthy(info, id, now) ==> id in ids
  {
    var m: nat :| ChosenUpTo(u, m, ids, now) && (|ids| < limit ==> m == |u.random|);
    WorthyInIsFilter(u.random[..m], u.info, now);
    forall id ensures Worthy(info, id, now) <==> Worthy(u.info, id, now) { SameWorth(info, u.info, id, now); }
    hide IsTerrible, SameButPosition;
    if m == |u.random| {
      assert u.random[..m] == u.random;
      forall id | Worthy(info, id, now) ensures id in ids {
        assert Worthy(u.info, id, now) && id in u.info.Keys;
      }
    }
  }

  // ----- what adding an address achieves

  /** Whether slot `s` takes a reference of an entry that has `refCount` references so far. */
  ghost predicate Accepts(t: Tables, s: Slot, refCount: int, now: int)
  {
    s !in t.newAt || (t.newAt[s] in t.info && Yields(t.info[t.newAt[s]], refCount, now))
  }

  /** The entry that loses its last reference, and so is forgotten, when slot `s` is given away. */
  ghost predicate Sacrificed(t: Tables, s: Slot, k: int)
  {
    s in t.newAt && k == t.newAt[s] && k in t.info && t.info[k].refCount == 1
  }

  /** From `t` to `u` addresses stay and no entry but `id` and the sacrificed one is lost. */
  ghost predicate LosesOnly(t: Tables, u: Tables, id: int, accepted: bool, s: Slot)
  {
    && (forall k :: k in u.info ==> k in t.info && u.info[k].addr == t.info[k].addr)
    && (forall k :: k in t.info && k != id ==> k in u.info || (accepted && Sacrificed(t, s, k)))
  }

  lemma PlaceByClearing(e: Env, t: Tables, id: int, s: Slot, loose: set<int>)
    requires Inv(e, t, loose, 0) && id in t.info && s in t.newAt && t.newAt[s] !in loose && t.newAt[s] != id
    ensures var u := ClearNew(t, s);
      id in u.info && LosesOnly(t, u, id, true, s) && LosesOnly(t, Link(u, id, s), id, true, s)
  {
    SlotEntry(e, t.info, t.newAt, s);
    hide Inv, ClearNew, LosesOnly, OnlyTouches;
    ClearNewEffect(e, t, s, loose, 0);
    ClearingLoses(t, ClearNew(t, s), id, s);
  }

  lemma ClearingLoses(t: Tables, u: Tables, id: int, s: Slot)
    requires s in t.newAt && OnlyTouches(t, u, t.newAt[s]) && id in t.info && t.newAt[s] != id
    requires t.newAt[s] in t.info && t.info[t.newAt[s]].refCount >= 1
    requires t.newAt[s] in u.info <==> t.info[t.newAt[s]].refCount > 1
    ensures id in u.info && LosesOnly(t, u, id, true, s) && LosesOnly(t, Link(u, id, s), id, true, s)
  {
    assert LosesOnly(t, u, id, true, s);
  }

  lemma PlaceEffect(e: Env, t: Tables, id: int, source: NetAddr, now: int)
    requires id in t.info && !t.info[id].inTried && 0 <= t.info[id].refCount < NEW_BUCKETS_PER_ADDRESS
    requires Inv(e, t, if t.info[id].refCount == 0 then {id} else {}, 0)
    ensures var s, u := NewSlot(e, t.info[id].addr.service, source), Place(e, t, id, source, now);
      && (id in u.info <==> t.info[id].refCount > 0 || Accepts(t, s, 0, now))
      && LosesOnly(t, u, id, Accepts(t, s, t.info[id].refCount, now), s)
  {
    hide Inv, IsTerrible, ClearNew, Delete, Link, NewSlot, LosesOnly, Yields, OnlyTouches;
    var loose, s := if t.info[id].refCount == 0 then {id} else {}, NewSlot(e, t.info[id].addr.service, source);
    RandomOf(e, t, loose, 0);
    LinkLoses(t, id, s);
    DeleteLoses(t, id, s);
    if s in t.newAt {
      SlotIsKnown(e, t, s, loose, 0);
      if t.newAt[s] != id {
        PlaceByClearing(e, t, id, s, loose);
        LinkLoses(ClearNew(t, s), id, s);
      }
    }
  }

  lemma LinkLoses(t: Tables, id: int, s: Slot)
    requires id in t.info
    ensures id in Link(t, id, s).info && forall accepted :: LosesOnly(t, t, id, accepted, s) && LosesOnly(t, Link(t, id, s), id, accepted, s)
  {
  }

  lemma DeleteLoses(t: Tables, id: int, s: Slot)
    requires RandomIndex(t.info, t.random) && id in t.info
    ensures id !in Delete(t, id).info && forall accepted :: LosesOnly(t, Delete(t, id), id, accepted, s)
  {
    DeleteTouches(t, id);
    hide Delete, RandomIndex;
  }

  lemma KnownByAddress(e: Env, t: Tables, net: NetAddr)
    requires Consistent(e, t)
    ensures net in t.ids <==> exists k :: k in t.info && t.info[k].addr.service.net == net
  {
    hide RandomIndex, TriedIndex, NewIndex, RefCounts, Entries, Referenced, Counted;
    if net in t.ids {
      var k := t.ids[net];
      assert k in t.info && t.info[k].addr.service.net == net;
    }
  }

  /**
   * Adding reports success exactly for routable addresses that were not known. That does not mean the address
   * is known afterwards: it is exactly when the one slot it hashes to was free or held an entry that gives way.
   */
  lemma AddOutcome(e: Env, t: Tables, addr: Address, source: NetAddr, penalty: int, now: int, draw: nat)
    requires Consistent(e, t)
    ensures var (u, added) := Add(e, t, addr, source, penalty, now, draw); var net := addr.service.net;
      && (added <==> e.routable(net) && net !in t.ids)
      && (added ==> (net in u.ids <==> Accepts(t, NewSlot(e, addr.service, source), 0, now)))
  {
    var net := addr.service.net;
    FindIsSound(e, t, net);
    AddKeepsConsistent(e, t, addr, source, penalty, now, draw);
    if e.routable(net) && net !in t.ids {
      AddNewOutcome(e, t, addr, source, penalty, now);
      KnownByAddress(e, Place(e, CreateNew(t, addr, source, penalty), t.idCount, source, now), net);
    }
    hide Inv, Place, CreateNew;
  }

  lemma AddNewOutcome(e: Env, t: Tables, addr: Address, source: NetAddr, penalty: int, now: int)
    requires Consistent(e, t) && addr.service.net !in t.ids
    ensures var u := CreateNew(t, addr, source, penalty);
      && t.idCount in u.info
      && Consistent(e, Place(e, u, t.idCount, source, now))
      && ((exists k :: k in Place(e, u, t.idCount, source, now).info
            && Place(e, u, t.idCount, source, now).info[k].addr.service.net == addr.service.net)
          <==> Accepts(t, NewSlot(e, addr.service, source), 0, now))
  {
    var u, id, s := CreateNew(t, addr, source, penalty), t.idCount, NewSlot(e, addr.service, source);
    CreateNewKeepsInv(e, t, addr, source, penalty);
    CreateNewState(e, t, addr, source, penalty, s);
    hide Inv, NewSlot, CreateNew;
    PlaceKeepsInv(e, u, id, source, now);
    PlaceEffect(e, u, id, source, now);
    AcceptsSame(t, u, s, id, now);
  }

  lemma CreateNewState(e: Env, t: Tables, addr: Address, source: NetAddr, penalty: int, s: Slot)
    requires Consistent(e, t) && addr.service.net !in t.ids
    ensures var u := CreateNew(t, addr, source, penalty);
      && t.idCount in u.info && u.info[t.idCount].addr.service == addr.service
      && u.newAt == t.newAt && u.triedAt == t.triedAt
      && (forall k :: k in u.info && u.info[k].addr.service.net == addr.service.net ==> k == t.idCount)
      && t.idCount !in t.info && u.info - {t.idCount} == t.info
      && (s in t.newAt ==> t.newAt[s] in t.info)
  {
    hide RandomIndex, TriedIndex, RefCounts, Referenced, Counted, SlotIn;
    var u := CreateNew(t, addr, source, penalty);
    assert t.idCount !in t.info;
    assert forall k :: k in t.info ==> t.info[k].addr.service.net in t.ids;
  }

  lemma AcceptsSame(t: Tables, u: Tables, s: Slot, id: int, now: int)
    requires u.newAt == t.newAt && id !in t.info && u.info - {id} == t.info
    requires s in t.newAt ==> t.newAt[s] in t.info
    ensures Accepts(u, s, 0, now) <==> Accepts(t, s, 0, now)
  {
    if s in t.newAt { assert (u.info - {id})[t.newAt[s]] == u.info[t.newAt[s]]; }
  }

  lemma ClearedAndLinked(e: Env, t: Tables, id: int, s: Slot, loose: set<int>)
    requires Inv(e, t, loose, 0) && id in t.info && s in t.newAt && t.newAt[s] !in loose && t.newAt[s] != id
    ensures var u := ClearNew(t, s);
      id in u.info && Link(u, id, s).triedAt == t.triedAt && Link(u, id, s).newAt == t.newAt[s := id]
  {
    hide Inv, ClearNew;
    ClearNewEffect(e, t, s, loose, 0);
  }

  /** What each way of storing a reference, or not, leaves of the two tables. */
  lemma PlaceParts(e: Env, t: Tables, id: int, s: Slot, loose: set<int>)
    requires Inv(e, t, loose, 0) && id in t.info && loose <= {id} && (id in loose ==> t.info[id].refCount == 0)
    ensures Link(t, id, s).triedAt == t.triedAt && Link(t, id, s).newAt == t.newAt[s := id]
    ensures Delete(t, id).triedAt == t.triedAt && Delete(t, id).newAt == t.newAt
    ensures s in t.newAt ==> t.newAt[s] in t.info
    ensures s in t.newAt && t.newAt[s] == id ==> t.newAt[s := id] == t.newAt
    ensures s in t.newAt && t.newAt[s] != id ==>
      var u := ClearNew(t, s);
      id in u.info && Link(u, id, s).triedAt == t.triedAt && Link(u, id, s).newAt == t.newAt[s := id]
  {
    RandomOf(e, t, loose, 0);
    DeleteTouches(t, id);
    hide Inv, ClearNew, Delete;
    if s in t.newAt {
      SlotIsKnown(e, t, s, loose, 0);
      if t.newAt[s] != id { ClearedAndLinked(e, t, id, s, loose); }
    }
  }

  lemma RandomOf(e: Env, t: Tables, loose: set<int>, pending: int)
    requires Inv(e, t, loose, pending)
    ensures RandomIndex(t.info, t.random)
  {
  }

  lemma SlotIsKnown(e: Env, t: Tables, s: Slot, loose: set<int>, pending: int)
    requires Inv(e, t, loose, pending) && s in t.newAt
    ensures t.newAt[s] in t.info && t.info[t.newAt[s]].refCount >= 1
  {
    SlotEntry(e, t.info, t.newAt, s);
  }

  /** Storing a reference leaves the tried table alone and every new slot but one. */
  lemma PlaceIsLocal(e: Env, t: Tables, id: int, source: NetAddr, now: int)
    requires id in t.info && !t.info[id].inTried && 0 <= t.info[id].refCount < NEW_BUCKETS_PER_ADDRESS
    requires Inv(e, t, if t.info[id].refCount == 0 then {id} else {}, 0)
    ensures var s, u := NewSlot(e, t.info[id].addr.service, source), Place(e, t, id, source, now);
      && u.triedAt == t.triedAt
      && u.newAt == if Accepts(t, s, t.info[id].refCount, now) then t.newAt[s := id] else t.newAt
  {
    hide Inv, Yields, ClearNew, Delete, NewSlot, Link;
    var s := NewSlot(e, t.info[id].addr.service, source);
    PlaceParts(e, t, id, s, if t.info[id].refCount == 0 then {id} else {});
  }

  /** The slot that an announcement may get its entry a reference in. */
  ghost function AddSlot(e: Env, t: Tables, addr: Address, source: NetAddr): Slot
  {
    match Find(t, addr.service.net)
    case None => NewSlot(e, addr.service, source)
    case Some(id) => NewSlot(e, t.info[id].addr.service, source)
  }

  /** From `t` to `u` only new slot `s` changed, if any, and only its former entry may be gone. */
  ghost predicate ChangesOnly(t: Tables, u: Tables, s: Slot)
  {
    && u.triedAt == t.triedAt && u.newAt - {s} == t.newAt - {s}
    && (forall k :: k in t.info ==> k in u.info || Sacrificed(t, s, k))
  }

  /** Whatever is announced, adding changes one slot of the new table at most, and only its entry may be forgotten. */
  lemma AddIsLocal(e: Env, t: Tables, addr: Address, source: NetAddr, penalty: int, now: int, draw: nat)
    requires Consistent(e, t)
    ensures ChangesOnly(t, Add(e, t, addr, source, penalty, now, draw).0, AddSlot(e, t, addr, source))
  {
    var net := addr.service.net;
    FindIsSound(e, t, net);
    hide Place, CreateNew, Inv, NewSlot, ChangesOnly, Refreshed, WantsReference;
    if Find(t, net).None? {
      AddNewIsLocal(e, t, addr, source, penalty, now);
    } else {
      AddKnownIsLocal(e, t, addr, source, penalty, now, draw, Find(t, net).value);
    }
    NothingChanges(t, AddSlot(e, t, addr, source));
  }

  lemma NothingChanges(t: Tables, s: Slot)
    ensures ChangesOnly(t, t, s)
  {
  }

  lemma RefreshKeepsInv(e: Env, t: Tables, addr: Address, penalty: int, now: int, id: int)
    requires Consistent(e, t) && id in t.info
    ensures Consistent(e, WithInfo(t, id, Refreshed(t.info[id], addr, penalty, now)))
    ensures EntryOk(id, t.info[id], t.idCount) && (!t.info[id].inTried ==> t.info[id].refCount >= 1)
    ensures SameButTime(t.info[id], Refreshed(t.info[id], addr, penalty, now))
  {
    hide AddrIndex, RandomIndex, TriedIndex, NewIndex, RefCounts, Counted;
    UpdateKeepsInv(e, t, id, Refreshed(t.info[id], addr, penalty, now), {}, 0);
  }

  ghost predicate SameButTime(i: Info, j: Info)
  {
    i.addr.service == j.addr.service && i.inTried == j.inTried && i.refCount == j.refCount
  }

  lemma AddKnownIsLocal(e: Env, t: Tables, addr: Address, source: NetAddr, penalty: int, now: int, draw: nat, id: int)
    requires Consistent(e, t) && id in t.info
    ensures var u, s := WithInfo(t, id, Refreshed(t.info[id], addr, penalty, now)), NewSlot(e, t.info[id].addr.service, source);
      ChangesOnly(t, u, s) && (WantsReference(u.info[id], addr, draw) ==> ChangesOnly(t, Place(e, u, id, source, now), s))
  {
    hide Inv, Place, NewSlot, Refreshed;
    RefreshKeepsInv(e, t, addr, penalty, now, id);
    var u := WithInfo(t, id, Refreshed(t.info[id], addr, penalty, now));
    if WantsReference(u.info[id], addr, draw) {
      PlaceIsLocal(e, u, id, source, now);
      PlaceEffect(e, u, id, source, now);
    }
  }

  lemma AddNewIsLocal(e: Env, t: Tables, addr: Address, source: NetAddr, penalty: int, now: int)
    requires Consistent(e, t) && addr.service.net !in t.ids
    ensures ChangesOnly(t, Place(e, CreateNew(t, addr, source, penalty), t.idCount, source, now), NewSlot(e, addr.service, source))
  {
    var u, id, s := CreateNew(t, addr, source, penalty), t.idCount, NewSlot(e, addr.service, source);
    hide Inv, NewSlot, CreateNew, Place, Yields;
    CreateNewKeepsInv(e, t, addr, source, penalty);
    CreateNewState(e, t, addr, source, penalty, s);
    PlaceIsLocal(e, u, id, source, now);
    PlaceEffect(e, u, id, source, now);
    assert forall k :: k in t.info ==> k in u.info && u.info[k] == (u.info - {id})[k] == t.info[k];
  }

  /** A repeated announcement takes no services away, keeps the place, and brings no time but the one announced. */
  lemma RefreshMovesForward(i: Info, addr: Address, penalty: int, now: int)
    ensures var r := Refreshed(i, addr, penalty, now).addr.time;
      addr.time - penalty < TIMES ==> i.addr.time <= r <= Max(i.addr.time, addr.time - penalty)
    ensures i.addr.services + addr.services == Refreshed(i, addr, penalty, now).addr.services
    ensures SamePlace(i, Refreshed(i, addr, penalty, now))
  {
  }

  /** Times have 32 bits. */
  const TIMES: nat := 0x1_0000_0000

  /** Exactly when an entry's time is set back: the time announced, less the penalty, wraps to before it. */
  lemma RefreshSetsBackIff(i: Info, addr: Address, penalty: int, now: int)
    requires i.addr.time < TIMES
    ensures var x, interval := addr.time - penalty, if now - addr.time < DAY then 60 * 60 else DAY;
      Refreshed(i, addr, penalty, now).addr.time < i.addr.time <==>
        addr.time != 0 && x >= TIMES && x % TIMES < i.addr.time < x - interval
  {
  }

  /** No entry's time is set back. */
  ghost predicate SetsNoneBack(addr: Address, penalty: int, now: int)
  {
    forall i: Info :: i.addr.time < TIMES ==> Refreshed(i, addr, penalty, now).addr.time >= i.addr.time
  }

  /** Exactly for which announcements and penalties no entry can be set back, whatever the clock. */
  lemma RefreshIsSafeIff(addr: Address, penalty: int, now: int)
    ensures var x := addr.time - penalty;
      SetsNoneBack(addr, penalty, now) <==> addr.time == 0 || x < TIMES || x % TIMES == TIMES - 1
  {
    hide Refreshed;
    var x := addr.time - penalty;
    forall i: Info | i.addr.time < TIMES ensures
      Refreshed(i, addr, penalty, now).addr.time < i.addr.time ==> addr.time != 0 && x >= TIMES && x % TIMES < i.addr.time
    {
      RefreshSetsBackIff(i, addr, penalty, now);
    }
    if addr.time != 0 && x >= TIMES && x % TIMES < TIMES - 1 {
      var i := Fresh(Address(addr.service, {}, x % TIMES + 1), 0);
      RefreshSetsBackIff(i, addr, penalty, now);
      assert Refreshed(i, addr, penalty, now).addr.time < i.addr.time;
    }
  }

  /** An entry with a time of 5 is set back to zero. */
  lemma RefreshMayWrap()
    ensures var i := Fresh(Address(Service(1, 80), {}, 5), 9);
      Refreshed(i, Address(Service(1, 80), {}, 100000), 100000 - 0x1_0000_0000, 1000).addr.time == 0
  {
  }

  // An input on which adding reports success and the address is unknown afterwards: two addresses that hash
  // to the same slot, the first of which is still good and has no other reference.

  const SAME_SLOT: Env := Env(1, _ => 0, _ => 0, _ => true)
  const FIRST: Address := Address(Service(1, 80), {}, 1000)
  const SECOND: Address := Address(Service(2, 80), {}, 1000)

  lemma FirstIsAdded()
    ensures var t := Add(SAME_SLOT, EMPTY, FIRST, 9, 0, 1000, 0).0;
      && t.newAt == map[(0, 0) := 0] && t.ids == map[1 := 0]
      && 0 in t.info && t.info[0].refCount == 1 && !IsTerrible(t.info[0], 1000)
      && NewSlot(SAME_SLOT, SECOND.service, 9) == (0, 0)
  {
    var u := CreateNew(EMPTY, FIRST, 9, 0);
    assert NewSlot(SAME_SLOT, FIRST.service, 9) == (0, 0);
    assert Place(SAME_SLOT, u, 0, 9, 1000) == Link(u, 0, (0, 0));
  }

  lemma AddMayForget()
    ensures var t := Add(SAME_SLOT, EMPTY, FIRST, 9, 0, 1000, 0).0;
      var (u, added) := Add(SAME_SLOT, t, SECOND, 9, 0, 1000, 0);
      added && SECOND.service.net !in u.ids
  {
    FirstIsAdded();
    EmptyIsConsistent(SAME_SLOT);
    hide Add, NewSlot, Consistent, IsTerrible;
    AddKeepsConsistent(SAME_SLOT, EMPTY, FIRST, 9, 0, 1000, 0);
    AddOutcome(SAME_SLOT, Add(SAME_SLOT, EMPTY, FIRST, 9, 0, 1000, 0).0, SECOND, 9, 0, 1000, 0);
  }

  // ----- what marking an address good achieves

  /** From `t` to `u` exactly entry `id` changed tables, or none did; only entries in `lost` are gone. */
  ghost predicate MovesOnly(t: Tables, u: Tables, id: int, lost: set<int>)
  {
    && (forall k :: k in u.info ==> k in t.info && u.info[k].addr == t.info[k].addr)
    && (forall k :: k in t.info ==> k in u.info || k in lost)
    && (forall k :: k in u.info && k != id ==> u.info[k].inTried == t.info[k].inTried)
  }

  /** The entry that is forgotten when slot `s` is needed: the one whose only reference is there. */
  ghost function LostAt(t: Tables, s: Slot): set<int>
  {
    set k | k in t.info && Sacrificed(t, s, k)
  }

  lemma ClearNewMoves(e: Env, t: Tables, s: Slot, id: int, loose: set<int>, pending: int)
    requires Inv(e, t, loose, pending) && Unreferenced(t, loose)
    ensures MovesOnly(t, ClearNew(t, s), id, LostAt(t, s))
  {
    if s in t.newAt {
      OccupantIsReferenced(e, t, s, loose, pending);
      SlotEntry(e, t.info, t.newAt, s);
      hide Inv, ClearNew, OnlyTouches, Unreferenced;
      ClearNewEffect(e, t, s, loose, pending);
      TouchesMoves(t, ClearNew(t, s), t.newAt[s], id, LostAt(t, s));
    }
  }

  lemma TouchesMoves(t: Tables, u: Tables, k: int, id: int, lost: set<int>)
    requires OnlyTouches(t, u, k) && k in t.info
    requires k !in u.info ==> k in lost
    ensures MovesOnly(t, u, id, lost)
  {
    assert forall j :: j in t.info && j != k ==> j in u.info && SameEntry(t.info[j], u.info[j]);
  }

  lemma UntryMoves(e: Env, t: Tables, s: Slot, to: Slot, loose: set<int>, pending: int)
    requires Inv(e, t, loose, pending) && s in t.triedAt && t.triedAt[s] in t.info && t.info[t.triedAt[s]].inTried
    ensures LostAt(Untry(t, s), to) == LostAt(t, to)
    ensures MovesOnly(t, Untry(t, s), t.triedAt[s], {})
  {
    hide AddrIndex, RandomIndex, TriedIndex, Entries, Referenced, Counted, LostAt;
    if to in t.newAt { SlotEntry(e, t.info, t.newAt, to); }
    hide NewIndex, RefCounts;
    SameLost(t, Untry(t, s), t.triedAt[s], to);
  }

  lemma SameLost(t: Tables, u: Tables, id: int, to: Slot)
    requires id in t.info && id in u.info && u.info == t.info[id := u.info[id]] && u.newAt == t.newAt
    requires to in t.newAt ==> t.newAt[to] != id
    ensures LostAt(u, to) == LostAt(t, to)
  {
    forall k ensures k in LostAt(u, to) <==> k in LostAt(t, to) {}
  }

  lemma MovesTwice(t: Tables, u: Tables, v: Tables, id: int, lost: set<int>)
    requires MovesOnly(t, u, id, {}) && MovesOnly(u, v, id, lost)
    ensures MovesOnly(t, v, id, lost)
  {
    assert forall k :: k in t.info ==> k in u.info;
    assert forall k :: k in v.info ==> k in u.info && v.info[k].addr == u.info[k].addr;
  }

  /** Eviction only changes the table of the evicted entry, which survives in the new table. */
  lemma EvictMoves(e: Env, t: Tables, s: Slot, loose: set<int>, pending: int)
    requires Inv(e, t, loose, pending) && Unreferenced(t, loose) && s in t.triedAt
    ensures t.triedAt[s] in t.info
    ensures MovesOnly(t, Evict(e, t, s), t.triedAt[s], LostAt(t, EvictedTo(e, t, s)))
    ensures t.triedAt[s] in Evict(e, t, s).info && !Evict(e, t, s).info[t.triedAt[s]].inTried
  {
    hide Inv, NewSlot, ClearNew, Unreferenced, MovesOnly, LostAt;
    UntryState(e, t, s, loose, pending);
    var id, to, u := t.triedAt[s], EvictedTo(e, t, s), Untry(t, s);
    var v := ClearNew(u, to);
    ClearNewMoves(e, u, to, id, loose + {id}, pending + 1);
    ClearNewKeepsInv(e, u, to, loose + {id}, pending + 1);
    UntryMoves(e, t, s, to, loose, pending);
    SettleMoves(u, v, Evict(e, t, s), id, to, LostAt(t, to));
    MovesTwice(t, u, Evict(e, t, s), id, LostAt(t, to));
  }

  lemma SettleMoves(t: Tables, u: Tables, v: Tables, id: int, to: Slot, lost: set<int>)
    requires MovesOnly(t, u, id, lost) && id in u.info && !u.info[id].inTried
    requires v == WithInfo(u, id, u.info[id].(refCount := 1)).(newAt := u.newAt[to := id], nNew := u.nNew + 1)
    ensures MovesOnly(t, v, id, lost) && id in v.info && !v.info[id].inTried
  {
  }

  /** `v` is `t` with entry `id` updated and taken out of the new table. */
  ghost predicate Prepared(t: Tables, v: Tables, id: int)
  {
    && id in t.info && id in v.info && v.info == t.info[id := v.info[id]] && !t.info[id].inTried
    && v.info[id].addr == t.info[id].addr && !v.info[id].inTried && v.info[id].refCount == 0
    && v.triedAt == t.triedAt
    && (forall s :: s in v.newAt ==> s in t.newAt && v.newAt[s] == t.newAt[s] != id)
  }

  lemma EntryIsOk(e: Env, t: Tables, id: int)
    requires Consistent(e, t) && id in t.info
    ensures EntryOk(id, t.info[id], t.idCount)
  {
  }

  lemma RefsGone(e: Env, t: Tables, id: int)
    requires Consistent(e, t) && id in t.info
    ensures UnlinkBelow(t, id, NEW_BUCKETS).newAt == t.newAt - Refs(t.newAt, id)
    ensures forall s :: s in t.newAt - Refs(t.newAt, id) ==> s in t.newAt && t.newAt[s] != id
  {
    RefsAreBelow(e, t.info, t.newAt, id);
  }

  lemma Prepare(e: Env, t: Tables, id: int, time: int)
    requires Consistent(e, t) && id in t.info && !t.info[id].inTried
    ensures Inv(e, TakeOut(MarkGood(t, id, time), id), {id}, 1)
    ensures Prepared(t, TakeOut(MarkGood(t, id, time), id), id)
  {
    hide Inv, Refs;
    EntryIsOk(e, t, id);
    UpdateKeepsInv(e, t, id, MarkGood(t, id, time).info[id], {}, 0);
    TakeOutKeepsInv(e, MarkGood(t, id, time), id);
    RefsGone(e, MarkGood(t, id, time), id);
  }

  /** What marking good does, from the prepared tables on. */
  lemma GoodFromPrepared(e: Env, t: Tables, v: Tables, id: int, slot: Slot)
    requires Prepared(t, v, id) && Inv(e, v, {id}, 1)
    requires slot in t.triedAt ==> t.triedAt[slot] in t.info && t.info[t.triedAt[slot]].inTried
    ensures id in Evict(e, v, slot).info
    ensures slot !in t.triedAt ==> Evict(e, v, slot) == v
    ensures slot in t.triedAt ==> MovesOnly(t, Evict(e, v, slot), t.triedAt[slot], LostAt(t, EvictedTo(e, t, slot)))
    ensures slot in t.triedAt ==>
      t.triedAt[slot] in Evict(e, v, slot).info && !Evict(e, v, slot).info[t.triedAt[slot]].inTried
  {
    hide Inv, NewSlot, ClearNew, MovesOnly, LostAt;
    EvictKeepsInv(e, v, slot, {id}, 1);
    if slot in t.triedAt {
      EvictMoves(e, v, slot, {id}, 1);
      PreparedMoves(t, v, Evict(e, v, slot), id, v.triedAt[slot], EvictedTo(e, v, slot));
    }
  }

  lemma PreparedMoves(t: Tables, v: Tables, w: Tables, id: int, k: int, to: Slot)
    requires Prepared(t, v, id) && !t.info[id].inTried && MovesOnly(v, w, k, LostAt(v, to)) && id in w.info
    ensures MovesOnly(t, w, k, LostAt(t, to))
  {
    forall j | j in t.info ensures j in w.info || j in LostAt(t, to) {
      assert j in v.info;
      if j in LostAt(v, to) { assert j == id || v.info[j] == t.info[j]; }
    }
  }

  /**
   * Marking a known address good that was not in the tried table: it moves there, to its own slot. Whatever
   * occupied that slot returns to the new table, and no entry is lost except one whose only reference was in
   * the slot needed for that. No other entry changes tables, and no entry changes its address.
   */
  lemma GoodOutcome(e: Env, t: Tables, s: Service, time: int)
    requires Consistent(e, t) && Find(t, s.net).Some?
    requires var i := t.info[Find(t, s.net).value]; i.addr.service == s && !i.inTried
    ensures var id, u, slot := Find(t, s.net).value, Good(e, t, s, time), TriedSlot(e, s);
      && id in u.info && u.info[id].inTried && slot in u.triedAt && u.triedAt[slot] == id
      && (forall k :: k in u.info ==> k in t.info && u.info[k].addr == t.info[k].addr)
      && (slot in t.triedAt ==> t.triedAt[slot] in t.info && t.triedAt[slot] in u.info)
      && (forall k :: k in t.info ==> k in u.info || (slot in t.triedAt && k in LostAt(t, EvictedTo(e, t, slot))))
      && (forall k :: k in u.info && k != id ==>
            (u.info[k].inTried <==> t.info[k].inTried && !(slot in t.triedAt && k == t.triedAt[slot])))
  {
    hide Inv, TakeOut, Evict, TriedSlot, LostAt, Untry, MovesOnly, Good, EvictedTo, Prepared;
    var id, slot := Find(t, s.net).value, TriedSlot(e, s);
    var v := TakeOut(MarkGood(t, id, time), id);
    if slot in t.triedAt { SlotsHoldTried(e, t, slot); }
    Prepare(e, t, id, time);
    GoodFromPrepared(e, t, v, id, slot);
    GoodIsTry(e, t, s, time, id);
    var lost := if slot in t.triedAt then LostAt(t, EvictedTo(e, t, slot)) else {};
    AssembleGood(t, v, Evict(e, v, slot), Good(e, t, s, time), id, slot, lost);
  }

  lemma SlotsHoldTried(e: Env, t: Tables, slot: Slot)
    requires Consistent(e, t) && slot in t.triedAt
    ensures t.triedAt[slot] in t.info && t.info[t.triedAt[slot]].inTried
  {
    hide TriedSlot;
  }

  lemma AssembleGood(t: Tables, v: Tables, w: Tables, u: Tables, id: int, slot: Slot, lost: set<int>)
    requires Prepared(t, v, id) && id in w.info
    requires slot !in t.triedAt ==> w == v
    requires slot in t.triedAt ==> MovesOnly(t, w, t.triedAt[slot], lost)
    requires slot in t.triedAt ==> t.triedAt[slot] in w.info && !w.info[t.triedAt[slot]].inTried
    requires u.info == w.info[id := w.info[id].(inTried := true)]
    ensures id in u.info && u.info[id].inTried
    ensures forall k :: k in u.info ==> k in t.info && u.info[k].addr == t.info[k].addr
    ensures slot in t.triedAt ==> t.triedAt[slot] in u.info
    ensures forall k :: k in t.info ==> k in u.info || (slot in t.triedAt && k in lost)
    ensures forall k :: k in u.info && k != id ==>
      (u.info[k].inTried <==> t.info[k].inTried && !(slot in t.triedAt && k == t.triedAt[slot]))
  {
    assert forall k :: k in t.info ==> k in v.info;
    assert forall k :: k in v.info && k != id ==> v.info[k] == t.info[k];
  }

  lemma GoodIsTry(e: Env, t: Tables, s: Service, time: int, id: int)
    requires Find(t, s.net) == Some(id) && t.info[id].addr.service == s && !t.info[id].inTried
    requires id in Evict(e, TakeOut(MarkGood(t, id, time), id), TriedSlot(e, s)).info
    ensures var w := Evict(e, TakeOut(MarkGood(t, id, time), id), TriedSlot(e, s));
      && Good(e, t, s, time).info == w.info[id := w.info[id].(inTried := true)]
      && Good(e, t, s, time).triedAt == w.triedAt[TriedSlot(e, s) := id]
  {
    hide TakeOut, Evict, TriedSlot;
  }
}
