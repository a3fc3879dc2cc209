/**
 * The global invariant of the address manager and the proof that every single-entry operation keeps it.
 * Operations are composed of steps between which the invariant holds except for a few loose entries,
 * which may be referenced from nowhere and need not be counted yet.
 */
module AddrInvariant {
  import opened AddrTables

  // ----- the parts of the invariant

  ghost predicate AddrIndex(info: map<int, Info>, ids: map<NetAddr, int>)
  {
    && (forall id :: id in info ==> info[id].addr.service.net in ids && ids[info[id].addr.service.net] == id)
    && (forall a :: a in ids ==> ids[a] in info && info[ids[a]].addr.service.net == a)
  }

  ghost predicate RandomIndex(info: map<int, Info>, random: seq<int>)
  {
    && (forall id :: id in info ==> 0 <= info[id].randomPos < |random| && random[info[id].randomPos] == id)
    && (forall i :: 0 <= i < |random| ==> random[i] in info && info[random[i]].randomPos == i)
  }

  ghost predicate TriedIndex(e: Env, info: map<int, Info>, triedAt: map<Slot, int>)
  {
    && (forall s :: s in triedAt ==>
          triedAt[s] in info && info[triedAt[s]].inTried && s == TriedSlot(e, info[triedAt[s]].addr.service))
    && (forall id :: id in info && info[id].inTried ==>
          TriedSlot(e, info[id].addr.service) in triedAt && triedAt[TriedSlot(e, info[id].addr.service)] == id)
  }

  ghost predicate NewIndex(e: Env, info: map<int, Info>, newAt: map<Slot, int>)
  {
    forall s: Slot :: s in newAt ==>
      && newAt[s] in info && !info[newAt[s]].inTried
      && s.0 < NEW_BUCKETS && s == SlotIn(e, info[newAt[s]].addr.service, s.0)
  }

  ghost predicate RefCounts(info: map<int, Info>, newAt: map<Slot, int>)
  {
    forall id :: id in info ==> info[id].refCount == |Refs(newAt, id)|
  }

  ghost predicate EntryOk(id: int, i: Info, idCount: int)
  {
    0 <= id < idCount && i.refCount <= NEW_BUCKETS_PER_ADDRESS
  }

  ghost predicate Entries(info: map<int, Info>, idCount: int)
  {
    idCount >= 0 && forall id :: id in info ==> EntryOk(id, info[id], idCount)
  }

  /** Entries outside the tried table are referenced from the new table, except for the loose ones. */
  ghost predicate Referenced(info: map<int, Info>, loose: set<int>)
  {
    && (forall id :: id in info && !info[id].inTried && id !in loose ==> info[id].refCount >= 1)
    && (forall id :: id in loose ==> id in info && !info[id].inTried)
  }

  ghost predicate Counted(info: map<int, Info>, nTried: int, nNew: int, pending: int)
  {
    nTried == |TriedIds(info)| && nNew + pending == |NewIds(info)|
  }

  ghost predicate Inv(e: Env, t: Tables, loose: set<int>, pending: int)
  {
    && AddrIndex(t.info, t.ids)
    && RandomIndex(t.info, t.random)
    && TriedIndex(e, t.info, t.triedAt)
    && NewIndex(e, t.info, t.newAt)
    && RefCounts(t.info, t.newAt)
    && Entries(t.info, t.idCount)
    && Referenced(t.info, loose)
    && Counted(t.info, t.nTried, t.nNew, pending)
  }

  /** The invariant between public operations. */
  ghost predicate Consistent(e: Env, t: Tables)
  {
    Inv(e, t, {}, 0)
  }

  // ----- changing one entry

  /** The change moves the entry neither between addresses nor in the random order. */
  ghost predicate SamePlace(i: Info, j: Info)
  {
    i.addr.service == j.addr.service && i.randomPos == j.randomPos
  }

  lemma UpdateKeepsIndexes(info: map<int, Info>, ids: map<NetAddr, int>, random: seq<int>, id: int, i: Info)
    requires AddrIndex(info, ids) && RandomIndex(info, random)
    requires id in info && SamePlace(info[id], i)
    ensures AddrIndex(info[id := i], ids) && RandomIndex(info[id := i], random)
  {
  }

  lemma UpdateKeepsTables(e: Env, info: map<int, Info>, triedAt: map<Slot, int>, newAt: map<Slot, int>, id: int, i: Info)
    requires TriedIndex(e, info, triedAt) && NewIndex(e, info, newAt)
    requires id in info && SamePlace(info[id], i) && info[id].inTried == i.inTried
    ensures TriedIndex(e, info[id := i], triedAt) && NewIndex(e, info[id := i], newAt)
  {
    hide TriedSlot, SlotIn;
  }

  lemma UpdateSplit(info: map<int, Info>, id: int, i: Info)
    requires id in info
    ensures TriedIds(info[id := i]) == TriedIds(info) - {id} + (if i.inTried then {id} else {})
    ensures NewIds(info[id := i]) == NewIds(info) - {id} + (if i.inTried then {} else {id})
  {
  }

  lemma UpdateKeepsCounts(info: map<int, Info>, nTried: int, nNew: int, id: int, i: Info, pending: int)
    requires Counted(info, nTried, nNew, pending) && id in info && info[id].inTried == i.inTried
    ensures Counted(info[id := i], nTried, nNew, pending)
  {
    assert TriedIds(info[id := i]) == TriedIds(info) && NewIds(info[id := i]) == NewIds(info);
  }

  lemma UpdateKeepsRefs(info: map<int, Info>, newAt: map<Slot, int>, loose: set<int>, idCount: int, id: int, i: Info)
    requires RefCounts(info, newAt) && Referenced(info, loose) && Entries(info, idCount)
    requires id in info && info[id].inTried == i.inTried && info[id].refCount == i.refCount && EntryOk(id, i, idCount)
    ensures RefCounts(info[id := i], newAt) && Referenced(info[id := i], loose) && Entries(info[id := i], idCount)
  {
  }

  /** A change that keeps an entry in its table, its references and its place keeps everything. */
  lemma UpdateKeepsInv(e: Env, t: Tables, id: int, i: Info, loose: set<int>, pending: int)
    requires Inv(e, t, loose, pending) && id in t.info
    requires SamePlace(t.info[id], i) && t.info[id].inTried == i.inTried && t.info[id].refCount == i.refCount
    requires EntryOk(id, i, t.idCount)
    ensures Inv(e, WithInfo(t, id, i), loose, pending)
  {
    UpdateKeepsIndexes(t.info, t.ids, t.random, id, i);
    UpdateKeepsTables(e, t.info, t.triedAt, t.newAt, id, i);
    UpdateKeepsRefs(t.info, t.newAt, loose, t.idCount, id, i);
    UpdateKeepsCounts(t.info, t.nTried, t.nNew, id, i, pending);
    hide AddrIndex, RandomIndex, TriedIndex, NewIndex, RefCounts, Entries, Referenced, Counted;
  }

  // ----- the random order

  ghost predicate SameEntry(i: Info, j: Info)
  {
    && i.addr == j.addr && i.source == j.source
    && i.lastSuccess == j.lastSuccess && i.lastTry == j.lastTry && i.attempts == j.attempts
    && i.refCount == j.refCount && i.inTried == j.inTried
  }

  /** Two entry maps that differ only in random positions. */
  ghost predicate SameButPosition(info: map<int, Info>, other: map<int, Info>)
  {
    && (forall id :: id in info ==> id in other && SameEntry(info[id], other[id]))
    && (forall id :: id in other ==> id in info)
  }

  lemma SwapIsPositional(t: Tables, i: int, j: int)
    ensures SameButPosition(t.info, SwapRandom(t, i, j).info)
    ensures SwapRandom(t, i, j) == t.(info := SwapRandom(t, i, j).info, random := SwapRandom(t, i, j).random)
  {
  }

  lemma SwapKeepsRandomIndex(t: Tables, i: int, j: int)
    requires RandomIndex(t.info, t.random)
    ensures RandomIndex(SwapRandom(t, i, j).info, SwapRandom(t, i, j).random)
    ensures |SwapRandom(t, i, j).random| == |t.random|
  {
  }

  lemma PositionsDoNotMatter(e: Env, t: Tables, u: Tables, loose: set<int>, pending: int)
    requires Inv(e, t, loose, pending)
    requires SameButPosition(t.info, u.info) && u == t.(info := u.info, random := u.random)
    requires RandomIndex(u.info, u.random)
    ensures Inv(e, u, loose, pending)
  {
    SameSplit(t.info, u.info);
    SameTables(e, t.info, u.info, t.triedAt, t.newAt);
    SameEntries(t.info, u.info, t.ids, t.newAt, t.idCount, loose);
    hide AddrIndex, RandomIndex, TriedIndex, NewIndex, RefCounts, Entries, Referenced, SameButPosition;
  }

  lemma SameEntries(info: map<int, Info>, other: map<int, Info>, ids: map<NetAddr, int>, newAt: map<Slot, int>,
                    idCount: int, loose: set<int>)
    requires SameButPosition(info, other)
    requires AddrIndex(info, ids) && RefCounts(info, newAt) && Entries(info, idCount) && Referenced(info, loose)
    ensures AddrIndex(other, ids) && RefCounts(other, newAt) && Entries(other, idCount) && Referenced(other, loose)
  {
    assert forall id :: id in info ==> id in other && SameEntry(info[id], other[id]);
  }

  lemma SameSplit(info: map<int, Info>, other: map<int, Info>)
    requires SameButPosition(info, other)
    ensures TriedIds(info) == TriedIds(other) && NewIds(info) == NewIds(other)
  {
    forall id ensures id in TriedIds(info) <==> id in TriedIds(other) {}
    forall id ensures id in NewIds(info) <==> id in NewIds(other) {}
  }

  lemma SameTables(e: Env, info: map<int, Info>, other: map<int, Info>, triedAt: map<Slot, int>, newAt: map<Slot, int>)
    requires SameButPosition(info, other)
    requires TriedIndex(e, info, triedAt) && NewIndex(e, info, newAt)
    ensures TriedIndex(e, other, triedAt) && NewIndex(e, other, newAt)
  {
    hide TriedSlot, SlotIn;
    assert forall id :: id in info ==> id in other && SameEntry(info[id], other[id]);
  }

  lemma SwapKeepsInv(e: Env, t: Tables, i: int, j: int, loose: set<int>, pending: int)
    requires Inv(e, t, loose, pending)
    ensures Inv(e, SwapRandom(t, i, j), loose, pending)
  {
    SwapIsPositional(t, i, j);
    SwapKeepsRandomIndex(t, i, j);
    PositionsDoNotMatter(e, t, SwapRandom(t, i, j), loose, pending);
  }

  // ----- deleting and creating

  lemma NoRefs(newAt: map<Slot, int>, id: int, s: Slot)
    requires |Refs(newAt, id)| == 0 && s in newAt
    ensures newAt[s] != id
  {
    assert newAt[s] == id ==> s in Refs(newAt, id);
  }

  lemma RemoveKeepsIndexes(info: map<int, Info>, ids: map<NetAddr, int>, random: seq<int>, id: int)
    requires AddrIndex(info, ids) && RandomIndex(info, random)
    requires id in info && info[id].randomPos == |random| - 1
    ensures AddrIndex(info - {id}, ids - {info[id].addr.service.net})
    ensures RandomIndex(info - {id}, random[..|random| - 1])
  {
  }

  lemma RemoveKeepsTables(e: Env, info: map<int, Info>, triedAt: map<Slot, int>, newAt: map<Slot, int>, id: int)
    requires TriedIndex(e, info, triedAt) && NewIndex(e, info, newAt) && RefCounts(info, newAt)
    requires id in info && !info[id].inTried && info[id].refCount == 0
    ensures TriedIndex(e, info - {id}, triedAt) && NewIndex(e, info - {id}, newAt) && RefCounts(info - {id}, newAt)
  {
    hide TriedSlot, SlotIn;
    forall s | s in newAt ensures newAt[s] != id { NoRefs(newAt, id, s); }
  }

  lemma RemoveKeepsCounts(info: map<int, Info>, nTried: int, nNew: int, id: int, pending: int)
    requires Counted(info, nTried, nNew, pending) && id in info && !info[id].inTried
    ensures Counted(info - {id}, nTried, nNew - 1, pending)
  {
    assert TriedIds(info - {id}) == TriedIds(info);
    assert NewIds(info - {id}) == NewIds(info) - {id} && id in NewIds(info);
  }

  lemma RemoveLast(e: Env, t: Tables, id: int, loose: set<int>, pending: int)
    requires Inv(e, t, loose, pending)
    requires id in loose && t.info[id].refCount == 0 && t.info[id].randomPos == |t.random| - 1
    ensures Inv(e, t.(random := t.random[..|t.random| - 1], ids := t.ids - {t.info[id].addr.service.net},
                      info := t.info - {id}, nNew := t.nNew - 1), loose - {id}, pending)
  {
    RemoveKeepsIndexes(t.info, t.ids, t.random, id);
    RemoveKeepsTables(e, t.info, t.triedAt, t.newAt, id);
    RemoveKeepsCounts(t.info, t.nTried, t.nNew, id, pending);
    hide AddrIndex, RandomIndex, TriedIndex, NewIndex, RefCounts, Counted;
  }

  lemma DeleteKeepsInv(e: Env, t: Tables, id: int, loose: set<int>, pending: int)
    requires Inv(e, t, loose, pending) && id in loose && id in t.info && t.info[id].refCount == 0
    ensures Inv(e, Delete(t, id), loose - {id}, pending)
  {
    hide AddrIndex, TriedIndex, NewIndex, RefCounts, Entries, Referenced, Counted;
    var i, j := t.info[id].randomPos, |t.random| - 1;
    var u := SwapRandom(t, i, j);
    SwapMovesLast(t, id);
    SwapKeepsInv(e, t, i, j, loose, pending);
    SwapIsPositional(t, i, j);
    hide Inv, SwapRandom;
    RemoveLast(e, u, id, loose, pending);
  }

  lemma SwapMovesLast(t: Tables, id: int)
    requires RandomIndex(t.info, t.random) && id in t.info
    ensures t.random != [] && id in SwapRandom(t, t.info[id].randomPos, |t.random| - 1).info
    ensures SwapRandom(t, t.info[id].randomPos, |t.random| - 1).info[id].randomPos == |t.random| - 1
    ensures |SwapRandom(t, t.info[id].randomPos, |t.random| - 1).random| == |t.random|
  {
  }

  lemma CreateKeepsInv(e: Env, t: Tables, addr: Address, source: NetAddr, loose: set<int>, pending: int)
    requires Inv(e, t, loose, pending) && addr.service.net !in t.ids
    ensures Inv(e, Create(t, addr, source), loose + {t.idCount}, pending + 1)
  {
    var i := Fresh(addr, source).(randomPos := |t.random|);
    assert t.idCount !in t.info;
    InsertKeepsIndexes(t.info, t.ids, t.random, t.idCount, i);
    InsertKeepsTables(e, t.info, t.triedAt, t.newAt, t.idCount, i);
    InsertKeepsCounts(t.info, t.nTried, t.nNew, t.idCount, i, pending);
    hide AddrIndex, RandomIndex, TriedIndex, NewIndex, RefCounts, Counted;
  }

  lemma InsertKeepsIndexes(info: map<int, Info>, ids: map<NetAddr, int>, random: seq<int>, id: int, i: Info)
    requires AddrIndex(info, ids) && RandomIndex(info, random)
    requires id !in info && i.addr.service.net !in ids && i.randomPos == |random|
    ensures AddrIndex(info[id := i], ids[i.addr.service.net := id])
    ensures RandomIndex(info[id := i], random + [id])
  {
  }

  lemma InsertKeepsTables(e: Env, info: map<int, Info>, triedAt: map<Slot, int>, newAt: map<Slot, int>, id: int, i: Info)
    requires TriedIndex(e, info, triedAt) && NewIndex(e, info, newAt) && RefCounts(info, newAt)
    requires id !in info && !i.inTried && i.refCount == 0
    ensures TriedIndex(e, info[id := i], triedAt) && NewIndex(e, info[id := i], newAt) && RefCounts(info[id := i], newAt)
  {
    hide TriedSlot, SlotIn;
    assert Refs(newAt, id) == {};
  }

  lemma InsertKeepsCounts(info: map<int, Info>, nTried: int, nNew: int, id: int, i: Info, pending: int)
    requires Counted(info, nTried, nNew, pending) && id !in info && !i.inTried
    ensures Counted(info[id := i], nTried, nNew, pending + 1)
  {
    assert TriedIds(info[id := i]) == TriedIds(info);
    assert NewIds(info[id := i]) == NewIds(info) + {id} && id !in NewIds(info);
  }

  // ----- references

  lemma RefsWithout(newAt: map<Slot, int>, gone: set<Slot>, k: int)
    ensures Refs(newAt - gone, k) == Refs(newAt, k) - gone
  {
  }

  lemma RefsWith(newAt: map<Slot, int>, s: Slot, id: int, k: int)
    requires s !in newAt
    ensures Refs(newAt[s := id], k) == Refs(newAt, k) + (if k == id then {s} else {})
  {
  }

  /** Emptying some slots of one entry and lowering its count by their number. */
  lemma UnlinkKeepsCounts(info: map<int, Info>, newAt: map<Slot, int>, gone: set<Slot>, id: int, i: Info)
    requires RefCounts(info, newAt) && id in info && gone <= Refs(newAt, id)
    requires i.refCount == info[id].refCount - |gone|
    ensures RefCounts(info[id := i], newAt - gone)
  {
    forall k | k in info ensures info[id := i][k].refCount == |Refs(newAt - gone, k)| {
      RefsWithout(newAt, gone, k);
      if k != id { assert Refs(newAt, k) - gone == Refs(newAt, k); }
    }
  }

  lemma UnlinkKeepsTables(e: Env, info: map<int, Info>, triedAt: map<Slot, int>, newAt: map<Slot, int>, gone: set<Slot>)
    requires TriedIndex(e, info, triedAt) && NewIndex(e, info, newAt)
    ensures NewIndex(e, info, newAt - gone)
  {
    hide TriedSlot, SlotIn;
  }

  lemma LoosenKeepsReferenced(info: map<int, Info>, loose: set<int>, idCount: int, id: int, i: Info)
    requires Referenced(info, loose) && Entries(info, idCount) && id in info && !info[id].inTried && !i.inTried
    requires EntryOk(id, i, idCount)
    ensures Referenced(info[id := i], loose + {id}) && Entries(info[id := i], idCount)
  {
  }

  /** Any number of references of an entry can be dropped, if it may be loose afterwards. */
  lemma UnlinkSomeKeepsInv(e: Env, t: Tables, id: int, gone: set<Slot>, loose: set<int>, pending: int)
    requires Inv(e, t, loose, pending) && id in t.info && !t.info[id].inTried && gone <= Refs(t.newAt, id)
    ensures Inv(e, WithInfo(t, id, t.info[id].(refCount := t.info[id].refCount - |gone|)).(newAt := t.newAt - gone),
                loose + {id}, pending)
  {
    var i := t.info[id].(refCount := t.info[id].refCount - |gone|);
    UpdateKeepsIndexes(t.info, t.ids, t.random, id, i);
    UnlinkKeepsTables(e, t.info, t.triedAt, t.newAt, gone);
    UpdateKeepsTables(e, t.info, t.triedAt, t.newAt - gone, id, i);
    UnlinkKeepsCounts(t.info, t.newAt, gone, id, i);
    LoosenKeepsReferenced(t.info, loose, t.idCount, id, i);
    UpdateKeepsCounts(t.info, t.nTried, t.nNew, id, i, pending);
    hide AddrIndex, RandomIndex, TriedIndex, NewIndex, RefCounts, Entries, Referenced, Counted;
  }

  /** An occupied slot counts towards the references of the entry in it. */
  lemma SlotEntry(e: Env, info: map<int, Info>, newAt: map<Slot, int>, s: Slot)
    requires NewIndex(e, info, newAt) && RefCounts(info, newAt) && s in newAt
    ensures newAt[s] in info && !info[newAt[s]].inTried && {s} <= Refs(newAt, newAt[s])
    ensures info[newAt[s]].refCount >= 1
  {
    hide SlotIn;
    var refs := Refs(newAt, newAt[s]);
    assert s in refs;
  }

  lemma UnlinkKeepsInv(e: Env, t: Tables, s: Slot, loose: set<int>, pending: int)
    requires Inv(e, t, loose, pending) && s in t.newAt
    ensures t.newAt[s] in t.info && !t.info[t.newAt[s]].inTried && t.info[t.newAt[s]].refCount >= 1
    ensures Inv(e, Unlink(t, s), loose + {t.newAt[s]}, pending)
  {
    SlotEntry(e, t.info, t.newAt, s);
    hide *;
    UnlinkIsSome(t, s);
    UnlinkSomeKeepsInv(e, t, t.newAt[s], {s}, loose, pending);
  }

  lemma UnlinkIsSome(t: Tables, s: Slot)
    requires s in t.newAt && t.newAt[s] in t.info
    ensures var id := t.newAt[s];
      Unlink(t, s) == WithInfo(t, id, t.info[id].(refCount := t.info[id].refCount - |{s}|)).(newAt := t.newAt - {s})
  {
    assert |{s}| == 1;
  }

  lemma UnlinkAllKeepsInv(e: Env, t: Tables, id: int, loose: set<int>, pending: int)
    requires Inv(e, t, loose, pending) && id in t.info && !t.info[id].inTried
    ensures Inv(e, UnlinkBelow(t, id, NEW_BUCKETS), loose + {id}, pending)
    ensures UnlinkBelow(t, id, NEW_BUCKETS).info[id].refCount == 0
  {
    hide *;
    UnlinkAllIs(e, t, id, loose, pending);
    UnlinkSomeKeepsInv(e, t, id, RefsBelow(t.newAt, id, NEW_BUCKETS), loose, pending);
  }

  lemma UnlinkAllIs(e: Env, t: Tables, id: int, loose: set<int>, pending: int)
    requires Inv(e, t, loose, pending) && id in t.info
    ensures RefsBelow(t.newAt, id, NEW_BUCKETS) <= Refs(t.newAt, id)
    ensures var gone, u := RefsBelow(t.newAt, id, NEW_BUCKETS), UnlinkBelow(t, id, NEW_BUCKETS);
      && u == WithInfo(t, id, t.info[id].(refCount := t.info[id].refCount - |gone|)).(newAt := t.newAt - gone)
      && id in u.info && u.info[id].refCount == 0
  {
    RefsAreBelow(e, t.info, t.newAt, id);
    RefCountIsCardinality(e, t, id, loose, pending);
    hide Inv, Refs, RefsBelow;
  }

  lemma RefsAreBelow(e: Env, info: map<int, Info>, newAt: map<Slot, int>, id: int)
    requires NewIndex(e, info, newAt)
    ensures RefsBelow(newAt, id, NEW_BUCKETS) == Refs(newAt, id)
  {
    hide SlotIn;
  }

  lemma LinkKeepsCounts(info: map<int, Info>, newAt: map<Slot, int>, s: Slot, id: int, i: Info)
    requires RefCounts(info, newAt) && id in info && s !in newAt
    requires i.refCount == info[id].refCount + 1
    ensures RefCounts(info[id := i], newAt[s := id])
  {
    forall k | k in info ensures info[id := i][k].refCount == |Refs(newAt[s := id], k)| {
      RefsWith(newAt, s, id, k);
    }
  }

  lemma LinkKeepsTables(e: Env, info: map<int, Info>, newAt: map<Slot, int>, s: Slot, id: int)
    requires NewIndex(e, info, newAt) && s !in newAt
    requires id in info && !info[id].inTried && s.0 < NEW_BUCKETS && s == SlotIn(e, info[id].addr.service, s.0)
    ensures NewIndex(e, info, newAt[s := id])
  {
    hide SlotIn;
  }

  lemma TightenKeepsReferenced(info: map<int, Info>, loose: set<int>, idCount: int, id: int, i: Info)
    requires Referenced(info, loose) && Entries(info, idCount) && id in info && !i.inTried
    requires EntryOk(id, i, idCount) && i.refCount >= 1
    ensures Referenced(info[id := i], loose - {id}) && Entries(info[id := i], idCount)
  {
  }

  lemma LinkKeepsInv(e: Env, t: Tables, id: int, s: Slot, loose: set<int>, pending: int)
    requires Inv(e, t, loose, pending) && s !in t.newAt
    requires id in t.info && !t.info[id].inTried && 0 <= t.info[id].refCount < NEW_BUCKETS_PER_ADDRESS
    requires s.0 < NEW_BUCKETS && s == SlotIn(e, t.info[id].addr.service, s.0)
    ensures Inv(e, Link(t, id, s), loose - {id}, pending)
  {
    var i := t.info[id].(refCount := t.info[id].refCount + 1);
    UpdateKeepsIndexes(t.info, t.ids, t.random, id, i);
    LinkKeepsTables(e, t.info, t.newAt, s, id);
    UpdateKeepsTables(e, t.info, t.triedAt, t.newAt[s := id], id, i);
    LinkKeepsCounts(t.info, t.newAt, s, id, i);
    TightenKeepsReferenced(t.info, loose, t.idCount, id, i);
    UpdateKeepsCounts(t.info, t.nTried, t.nNew, id, i, pending);
    hide AddrIndex, RandomIndex, TriedIndex, NewIndex, RefCounts, Entries, Referenced, Counted, SlotIn;
  }

  /** A referenced entry need not be loose. */
  lemma Tighten(e: Env, t: Tables, id: int, loose: set<int>, pending: int)
    requires Inv(e, t, loose, pending) && (id in t.info ==> t.info[id].refCount >= 1)
    ensures Inv(e, t, loose - {id}, pending)
  {
    hide AddrIndex, RandomIndex, TriedIndex, NewIndex, RefCounts, Entries, Counted;
  }

  lemma RefCountIsCardinality(e: Env, t: Tables, id: int, loose: set<int>, pending: int)
    requires Inv(e, t, loose, pending) && id in t.info
    ensures t.info[id].refCount == |Refs(t.newAt, id)|
  {
  }

  // ----- the tried table

  lemma UntryKeepsTables(e: Env, info: map<int, Info>, triedAt: map<Slot, int>, newAt: map<Slot, int>, s: Slot, i: Info)
    requires TriedIndex(e, info, triedAt) && NewIndex(e, info, newAt) && s in triedAt
    requires SamePlace(info[triedAt[s]], i) && !i.inTried
    ensures TriedIndex(e, info[triedAt[s] := i], triedAt - {s}) && NewIndex(e, info[triedAt[s] := i], newAt)
  {
    hide TriedSlot, SlotIn;
  }

  lemma UntryKeepsCounts(info: map<int, Info>, nTried: int, nNew: int, pending: int, id: int, i: Info)
    requires Counted(info, nTried, nNew, pending) && id in info && info[id].inTried && !i.inTried
    ensures Counted(info[id := i], nTried - 1, nNew, pending + 1)
  {
    UpdateSplit(info, id, i);
    assert id in TriedIds(info) && id !in NewIds(info);
    assert NewIds(info) - {id} == NewIds(info);
  }

  lemma UntryKeepsReferenced(info: map<int, Info>, newAt: map<Slot, int>, loose: set<int>, idCount: int, id: int, i: Info)
    requires RefCounts(info, newAt) && Referenced(info, loose) && Entries(info, idCount) && id in info
    requires i == info[id].(inTried := false)
    ensures RefCounts(info[id := i], newAt) && Referenced(info[id := i], loose + {id}) && Entries(info[id := i], idCount)
  {
  }

  lemma UntryKeepsInv(e: Env, t: Tables, s: Slot, loose: set<int>, pending: int)
    requires Inv(e, t, loose, pending) && s in t.triedAt
    ensures t.triedAt[s] in t.info && t.info[t.triedAt[s]].inTried
    ensures Inv(e, Untry(t, s), loose + {t.triedAt[s]}, pending + 1)
  {
    var id := t.triedAt[s];
    var i := t.info[id].(inTried := false);
    UpdateKeepsIndexes(t.info, t.ids, t.random, id, i);
    UntryKeepsTables(e, t.info, t.triedAt, t.newAt, s, i);
    UntryKeepsReferenced(t.info, t.newAt, loose, t.idCount, id, i);
    UntryKeepsCounts(t.info, t.nTried, t.nNew, pending, id, i);
    hide AddrIndex, RandomIndex, TriedIndex, NewIndex, RefCounts, Entries, Referenced, Counted;
  }

  /** An entry of the tried table has no references. */
  lemma TriedIsUnreferenced(e: Env, t: Tables, id: int, loose: set<int>, pending: int)
    requires Inv(e, t, loose, pending) && id in t.info && t.info[id].inTried
    ensures t.info[id].refCount == 0
  {
    hide SlotIn, TriedSlot;
    assert Refs(t.newAt, id) == {};
  }

  lemma TryKeepsTables(e: Env, info: map<int, Info>, triedAt: map<Slot, int>, newAt: map<Slot, int>, id: int, i: Info)
    requires TriedIndex(e, info, triedAt) && NewIndex(e, info, newAt) && RefCounts(info, newAt)
    requires id in info && !info[id].inTried && info[id].refCount == 0 && TriedSlot(e, i.addr.service) !in triedAt
    requires SamePlace(info[id], i) && i.inTried && i.refCount == 0
    ensures TriedIndex(e, info[id := i], triedAt[TriedSlot(e, i.addr.service) := id])
    ensures NewIndex(e, info[id := i], newAt) && RefCounts(info[id := i], newAt)
  {
    hide TriedSlot, SlotIn;
    forall s | s in newAt ensures newAt[s] != id { NoRefs(newAt, id, s); }
  }

  lemma TryKeepsCounts(info: map<int, Info>, nTried: int, nNew: int, pending: int, id: int, i: Info)
    requires Counted(info, nTried, nNew, pending) && id in info && !info[id].inTried && i.inTried
    ensures Counted(info[id := i], nTried + 1, nNew, pending - 1)
  {
    UpdateSplit(info, id, i);
    assert id in NewIds(info) && id !in TriedIds(info);
    assert TriedIds(info) - {id} == TriedIds(info);
  }

  lemma TryKeepsReferenced(info: map<int, Info>, loose: set<int>, idCount: int, id: int, i: Info)
    requires Referenced(info, loose) && Entries(info, idCount) && id in info && i.inTried && EntryOk(id, i, idCount)
    ensures Referenced(info[id := i], loose - {id}) && Entries(info[id := i], idCount)
  {
  }

  ghost function Try(e: Env, t: Tables, id: int): Tables
    requires id in t.info
  {
    WithInfo(t, id, t.info[id].(inTried := true))
      .(triedAt := t.triedAt[TriedSlot(e, t.info[id].addr.service) := id], nTried := t.nTried + 1)
  }

  lemma TryKeepsInv(e: Env, t: Tables, id: int, loose: set<int>, pending: int)
    requires Inv(e, t, loose, pending) && id in t.info && !t.info[id].inTried
    requires t.info[id].refCount == 0
    requires TriedSlot(e, t.info[id].addr.service) !in t.triedAt
    ensures Inv(e, Try(e, t, id), loose - {id}, pending - 1)
  {
    var i := t.info[id].(inTried := true);
    UpdateKeepsIndexes(t.info, t.ids, t.random, id, i);
    TryKeepsTables(e, t.info, t.triedAt, t.newAt, id, i);
    TryKeepsReferenced(t.info, loose, t.idCount, id, i);
    TryKeepsCounts(t.info, t.nTried, t.nNew, pending, id, i);
    hide AddrIndex, RandomIndex, TriedIndex, NewIndex, RefCounts, Entries, Referenced, Counted, TriedSlot;
  }

  /** The counter of new entries is corrected once an entry that was in no table has settled. */
  lemma Recount(e: Env, t: Tables, loose: set<int>, pending: int, k: int)
    requires Inv(e, t, loose, pending)
    ensures Inv(e, t.(nNew := t.nNew + k), loose, pending - k)
  {
    hide AddrIndex, RandomIndex, TriedIndex, NewIndex, RefCounts, Entries, Referenced;
  }
}
