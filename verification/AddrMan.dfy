/**
 * The address manager: the class with its five indexes and two counters, each method proved against the
 * function of AddrTables that says what it does to the tables. Every assertion of the source appears here
 * as an assertion that holds.
 */
module AddrMan {
  import opened AddrTables
  import opened AddrInvariant
  import opened AddrOperations
  import opened AddrSerialize
  import opened AddrTheorems
  import opened Radix
  import opened Wrappers

  ghost function Slots(n: nat, m: nat): set<Slot>
  {
    set b: nat, p: nat | b < n && p < m :: (b, p)
  }

  /** The occupied slots of a table of buckets, where -1 marks a free slot. */
  ghost function Occupied(a: array2<int>): map<Slot, int>
    reads a
  {
    map s | s in Slots(a.Length0, a.Length1) && a[s.0, s.1] != -1 :: a[s.0, s.1]
  }

  method SetSlot(a: array2<int>, b: nat, p: nat, id: int)
    requires b < a.Length0 && p < a.Length1
    modifies a
    ensures a[b, p] == id
    ensures Occupied(a) == if id == -1 then old(Occupied(a)) - {(b, p)} else old(Occupied(a))[(b, p) := id]
  {
    a[b, p] := id;
  }

  lemma SlotIsFree(a: array2<int>, b: nat, p: nat)
    requires b < a.Length0 && p < a.Length1
    ensures a[b, p] == -1 <==> (b, p) !in Occupied(a)
    ensures a[b, p] != -1 ==> Occupied(a)[(b, p)] == a[b, p]
  {
    assert (b, p) in Slots(a.Length0, a.Length1);
  }

  lemma RefsBelowStep(e: Env, info: map<int, Info>, newAt: map<Slot, int>, id: int, b: nat)
    requires NewIndex(e, info, newAt) && id in info
    ensures var s := SlotIn(e, info[id].addr.service, b);
      && s !in RefsBelow(newAt, id, b)
      && RefsBelow(newAt, id, b + 1)
           == RefsBelow(newAt, id, b) + (if s in newAt && newAt[s] == id then {s} else {})
  {
    var s := SlotIn(e, info[id].addr.service, b);
    assert s.0 == b;
    hide SlotIn;
    forall z | z in RefsBelow(newAt, id, b + 1) ensures z in RefsBelow(newAt, id, b) || z == s {}
  }

  /** Going through one more bucket while an entry is taken out of the new table. */
  lemma UnlinkBelowStep(e: Env, t: Tables, id: int, b: nat)
    requires NewIndex(e, t.info, t.newAt) && id in t.info
    ensures id in UnlinkBelow(t, id, b).info && UnlinkBelow(t, id, b).info[id].addr == t.info[id].addr
    ensures var s, u := SlotIn(e, t.info[id].addr.service, b), UnlinkBelow(t, id, b);
      UnlinkBelow(t, id, b + 1) == if s in u.newAt && u.newAt[s] == id then Unlinked(u, id, s) else u
  {
    hide SlotIn, NewIndex, RefsBelow, Refs;
    var s, gone := SlotIn(e, t.info[id].addr.service, b), RefsBelow(t.newAt, id, b);
    RefsBelowStep(e, t.info, t.newAt, id, b);
    MinusOneMore(t.newAt, gone, s);
    if s in t.newAt && t.newAt[s] == id {
      assert RefsBelow(t.newAt, id, b + 1) == gone + {s};
    } else {
      assert RefsBelow(t.newAt, id, b + 1) == gone;
    }
  }

  /** One reference of `id` less, the one in slot `s`. */
  ghost function Unlinked(u: Tables, id: int, s: Slot): Tables
    requires id in u.info
  {
    WithInfo(u, id, u.info[id].(refCount := u.info[id].refCount - 1)).(newAt := u.newAt - {s})
  }

  lemma MinusOneMore(m: map<Slot, int>, gone: set<Slot>, s: Slot)
    requires s !in gone
    ensures m - (gone + {s}) == m - gone - {s} && |gone + {s}| == |gone| + 1
    ensures s in m - gone <==> s in m
    ensures s in m ==> (m - gone)[s] == m[s]
  {
  }

  lemma UnlinkNone(t: Tables, id: int)
    requires id in t.info
    ensures UnlinkBelow(t, id, 0) == t
  {
    assert RefsBelow(t.newAt, id, 0) == {};
  }

  class CAddrMan {
    // The hash function, the grouping of addresses and routability are fixed by the environment.
    const hash: seq<int> -> nat
    const group: NetAddr -> int
    const routable: NetAddr -> bool

    var nKey: int
    var nIdCount: int
    var mapInfo: map<int, Info>
    var mapAddr: map<NetAddr, int>
    var vRandom: seq<int>
    var nTried: int
    var nNew: int
    const vvTried: array2<int>
    const vvNew: array2<int>

    ghost predicate Shape()
    {
      && vvTried.Length0 == TRIED_BUCKETS && vvTried.Length1 == BUCKET_SIZE
      && vvNew.Length0 == NEW_BUCKETS && vvNew.Length1 == BUCKET_SIZE
      && vvTried != vvNew
    }

    function E(): Env
      reads this`nKey
    {
      Env(nKey, hash, group, routable)
    }

    ghost function T(): Tables
      reads this, vvTried, vvNew
    {
      Tables(nIdCount, mapInfo, mapAddr, vRandom, Occupied(vvTried), Occupied(vvNew), nTried, nNew)
    }

    ghost predicate Valid()
      reads this, vvTried, vvNew
    {
      Shape() && Consistent(E(), T())
    }

    /** Empties the buckets and counters and draws a new key. The entry maps are left as they are. */
    method Clear(key: int)
      requires Shape()
      modifies this, vvTried, vvNew
      ensures nKey == key && T() == EMPTY.(info := old(mapInfo), ids := old(mapAddr))
    {
      vRandom := [];
      nKey := key;
      ClearBuckets(vvNew);
      ClearBuckets(vvTried);
      nIdCount := 0;
      nTried := 0;
      nNew := 0;
    }

    static method ClearBuckets(a: array2<int>)
      modifies a
      ensures Occupied(a) == map[]
    {
      var bucket := 0;
      while bucket < a.Length0
        invariant 0 <= bucket <= a.Length0
        invariant forall b, p :: 0 <= b < bucket && 0 <= p < a.Length1 ==> a[b, p] == -1
      {
        var entry := 0;
        while entry < a.Length1
          invariant 0 <= entry <= a.Length1
          invariant forall b, p :: 0 <= b < bucket && 0 <= p < a.Length1 ==> a[b, p] == -1
          invariant forall p :: 0 <= p < entry ==> a[bucket, p] == -1
        {
          a[bucket, entry] := -1;
          entry := entry + 1;
        }
        bucket := bucket + 1;
      }
    }

    constructor (key: int, hash: seq<int> -> nat, group: NetAddr -> int, routable: NetAddr -> bool)
      ensures Valid() && nKey == key && T() == EMPTY
      ensures this.hash == hash && this.group == group && this.routable == routable
      ensures fresh(vvTried) && fresh(vvNew)
    {
      this.hash, this.group, this.routable := hash, group, routable;
      mapInfo, mapAddr := map[], map[];
      vvTried := new int[TRIED_BUCKETS, BUCKET_SIZE];
      vvNew := new int[NEW_BUCKETS, BUCKET_SIZE];
      new;
      Clear(key);
      EmptyIsConsistent(E());
    }

    method Find(net: NetAddr) returns (id: Option<int>)
      ensures id == AddrTables.Find(T(), net)
    {
      if net !in mapAddr {
        return None;
      }
      id := if mapAddr[net] in mapInfo then Some(mapAddr[net]) else None;
    }

    method Create(addr: Address, source: NetAddr) returns (id: int)
      modifies this
      ensures id == old(nIdCount) && nKey == old(nKey)
      ensures T() == AddrTables.Create(old(T()), addr, source)
    {
      id := nIdCount;
      nIdCount := nIdCount + 1;
      mapInfo := mapInfo[id := Fresh(addr, source)];
      mapAddr := mapAddr[addr.service.net := id];
      mapInfo := mapInfo[id := mapInfo[id].(randomPos := |vRandom|)];
      vRandom := vRandom + [id];
    }

    method SwapRandom(i: int, j: int)
      requires 0 <= i < |vRandom| && 0 <= j < |vRandom| && RandomIndex(mapInfo, vRandom)
      modifies this
      ensures T() == AddrTables.SwapRandom(old(T()), i, j) && nKey == old(nKey)
    {
      hide Occupied;
      if i == j {
        return;
      }
      var a, b := vRandom[i], vRandom[j];
      assert a in mapInfo;
      assert b in mapInfo;
      mapInfo := mapInfo[a := mapInfo[a].(randomPos := j)];
      mapInfo := mapInfo[b := mapInfo[b].(randomPos := i)];
      vRandom := vRandom[i := b][j := a];
    }

    method Delete(id: int)
      requires RandomIndex(mapInfo, vRandom)
      requires id in mapInfo && !mapInfo[id].inTried && mapInfo[id].refCount == 0
      modifies this
      ensures T() == AddrTables.Delete(old(T()), id) && nKey == old(nKey)
    {
      hide Occupied, RandomIndex;
      ghost var t := T();
      SwapMovesLast(t, id);
      SwapIsPositional(t, mapInfo[id].randomPos, |vRandom| - 1);
      SwapRandom(mapInfo[id].randomPos, |vRandom| - 1);
      vRandom := vRandom[..|vRandom| - 1];
      mapAddr := mapAddr - {mapInfo[id].addr.service.net};
      mapInfo := mapInfo - {id};
      nNew := nNew - 1;
    }

    method ClearNew(b: nat, p: nat, ghost loose: set<int>, ghost pending: int)
      requires Shape() && b < NEW_BUCKETS && p < BUCKET_SIZE
      requires Inv(E(), T(), loose, pending)
      modifies this, vvNew
      ensures T() == AddrTables.ClearNew(old(T()), (b, p)) && nKey == old(nKey)
      ensures vvNew[b, p] == -1
    {
      hide Occupied, AddrIndex, RandomIndex, TriedIndex, NewIndex, RefCounts, Entries, Referenced, Counted;
      SlotIsFree(vvNew, b, p);
      if vvNew[b, p] != -1 {
        ghost var t := T();
        SlotEntry(E(), mapInfo, t.newAt, (b, p));
        UnlinkKeepsInv(E(), t, (b, p), loose, pending);
        var id := vvNew[b, p];
        assert mapInfo[id].refCount > 0;
        mapInfo := mapInfo[id := mapInfo[id].(refCount := mapInfo[id].refCount - 1)];
        SetSlot(vvNew, b, p, -1);
        assert T() == Unlink(t, (b, p));
        if mapInfo[id].refCount == 0 {
          Delete(id);
        }
      }
    }

    method MakeTried(id: int)
      requires Valid() && id in mapInfo && !mapInfo[id].inTried
      modifies this, vvTried, vvNew
      ensures Valid() && T() == AddrTables.MakeTried(E(), old(T()), id) && nKey == old(nKey)
    {
      hide Occupied, Inv, RefsBelow, Evict, NewBucket, TriedBucket, BucketPosition;
      ghost var t := T();
      EntryIsOk(E(), t, id);
      MakeTriedKeepsInv(E(), t, id);
      TakeOutKeepsInv(E(), t, id);
      RemoveFromNew(id);
      nNew := nNew - 1;
      ghost var u := T();
      assert u == TakeOut(t, id);
      assert mapInfo[id].refCount == 0;
      var nKBucket := TriedBucket(E(), mapInfo[id].addr.service);
      var nKBucketPos := BucketPosition(E(), mapInfo[id].addr.service, false, nKBucket);
      assert TriedSlot(E(), t.info[id].addr.service) == (nKBucket, nKBucketPos);
      EvictKeepsInv(E(), u, (nKBucket, nKBucketPos), {id}, 1);
      EvictSlot(nKBucket, nKBucketPos, {id}, 1);
      SlotIsFree(vvTried, nKBucket, nKBucketPos);
      assert vvTried[nKBucket, nKBucketPos] == -1;
      SetSlot(vvTried, nKBucket, nKBucketPos, id);
      nTried := nTried + 1;
      mapInfo := mapInfo[id := mapInfo[id].(inTried := true)];
    }

    /** Removes an entry from all new buckets. */
    method RemoveFromNew(id: int)
      requires Valid() && id in mapInfo
      modifies this, vvNew
      ensures T() == UnlinkBelow(old(T()), id, NEW_BUCKETS) && nKey == old(nKey)
    {
      hide Occupied, UnlinkBelow, RefCounts, NewBucket, TriedBucket, BucketPosition;
      ghost var t := T();
      UnlinkNone(t, id);
      var bucket := 0;
      while bucket < NEW_BUCKETS
        invariant 0 <= bucket <= NEW_BUCKETS
        invariant T() == UnlinkBelow(t, id, bucket) && nKey == old(nKey)
      {
        UnlinkBelowStep(E(), t, id, bucket);
        var pos := BucketPosition(E(), mapInfo[id].addr.service, true, bucket);
        SlotIsFree(vvNew, bucket, pos);
        if vvNew[bucket, pos] == id {
          SetSlot(vvNew, bucket, pos, -1);
          mapInfo := mapInfo[id := mapInfo[id].(refCount := mapInfo[id].refCount - 1)];
        }
        bucket := bucket + 1;
      }
    }

    /** Makes space in the tried table: the entry there, if any, goes back to the new table. */
    method EvictSlot(b: nat, p: nat, ghost loose: set<int>, ghost pending: int)
      requires Shape() && b < TRIED_BUCKETS && p < BUCKET_SIZE
      requires Inv(E(), T(), loose, pending) && Unreferenced(T(), loose)
      modifies this, vvTried, vvNew
      ensures T() == Evict(E(), old(T()), (b, p)) && nKey == old(nKey)
    {
      hide Occupied, Inv, AddrTables.ClearNew, NewBucket, TriedBucket, BucketPosition;
      SlotIsFree(vvTried, b, p);
      if vvTried[b, p] != -1 {
        var id := vvTried[b, p];
        ghost var t := T();
        UntryState(E(), t, (b, p), loose, pending);
        assert id in mapInfo;
        mapInfo := mapInfo[id := mapInfo[id].(inTried := false)];
        SetSlot(vvTried, b, p, -1);
        nTried := nTried - 1;
        assert T() == Untry(t, (b, p));
        var nUBucket := NewBucket(E(), mapInfo[id].addr.service, mapInfo[id].source);
        var nUBucketPos := BucketPosition(E(), mapInfo[id].addr.service, true, nUBucket);
        ClearNewKeepsInv(E(), T(), (nUBucket, nUBucketPos), loose + {id}, pending + 1);
        ClearNew(nUBucket, nUBucketPos, loose + {id}, pending + 1);
        assert vvNew[nUBucket, nUBucketPos] == -1;
        mapInfo := mapInfo[id := mapInfo[id].(refCount := 1)];
        SetSlot(vvNew, nUBucket, nUBucketPos, id);
        nNew := nNew + 1;
      }
    }

    /** Marks an entry good; `nRnd` is the random bucket from which the search for a reference starts. */
    method Good_(addr: Service, nTime: int, nRnd: nat)
      requires Valid()
      modifies this, vvTried, vvNew
      ensures Valid() && T() == AddrTables.Good(E(), old(T()), addr, nTime) && nKey == old(nKey)
    {
      hide Occupied, Inv, AddrTables.MakeTried, NewBucket, TriedBucket, BucketPosition;
      ghost var t := T();
      FindIsSound(E(), t, addr.net);
      GoodKeepsConsistent(E(), t, addr, nTime);
      var found := Find(addr.net);
      if found.None? {
        return;
      }
      var id := found.value;
      if mapInfo[id].addr.service != addr {
        return;
      }
      mapInfo := mapInfo[id := mapInfo[id].(lastSuccess := nTime, lastTry := nTime, attempts := 0)];
      assert T() == MarkGood(t, id, nTime);
      if mapInfo[id].inTried {
        return;
      }
      UpdateKeepsInv(E(), t, id, mapInfo[id], {}, 0);
      var nUBucket := FindReference(id, nRnd);
      MakeTried(id);
    }

    /** Finds a bucket an entry of the new table is in. The source allows for there being none: there always is one. */
    method FindReference(id: int, nRnd: nat) returns (nUBucket: int)
      requires Valid() && id in mapInfo && !mapInfo[id].inTried
      ensures 0 <= nUBucket < NEW_BUCKETS
      ensures vvNew[nUBucket, BucketPosition(E(), mapInfo[id].addr.service, true, nUBucket)] == id
    {
      hide Occupied, Consistent, BucketPosition;
      ghost var b := ReferenceExists(E(), T(), id);
      SlotIsFree(vvNew, b, BucketPosition(E(), mapInfo[id].addr.service, true, b));
      ghost var m := RoundOf(b, nRnd);
      assert At(m, nRnd, id);
      nUBucket := -1;
      var n := 0;
      while n < NEW_BUCKETS
        invariant 0 <= n <= m && nUBucket == -1
      {
        var nB := (n + nRnd) % NEW_BUCKETS;
        var nBpos := BucketPosition(E(), mapInfo[id].addr.service, true, nB);
        if vvNew[nB, nBpos] == id {
          nUBucket := nB;
          break;
        }
        n := n + 1;
      }
    }

    /** Whether round `m` of a search that starts in bucket `nRnd` finds `id`. */
    ghost predicate At(m: nat, nRnd: nat, id: int)
      requires Shape() && id in mapInfo
      reads this, vvNew
    {
      var b := (m + nRnd) % NEW_BUCKETS;
      vvNew[b, BucketPosition(E(), mapInfo[id].addr.service, true, b)] == id
    }

    /** Adds an address; the result says whether it is new. `draw` is the random draw. */
    method Add_(addr: Address, source: NetAddr, nTimePenalty: int, now: int, draw: nat) returns (fNew: bool)
      requires Valid()
      modifies this, vvNew
      ensures Valid() && nKey == old(nKey)
      ensures (T(), fNew) == AddrTables.Add(E(), old(T()), addr, source, nTimePenalty, now, draw)
    {
      hide Occupied, Inv, AddrTables.Place, NewBucket, TriedBucket, BucketPosition;
      ghost var t := T();
      FindIsSound(E(), t, addr.service.net);
      AddKeepsConsistent(E(), t, addr, source, nTimePenalty, now, draw);
      if !routable(addr.service.net) {
        return false;
      }
      var found := Find(addr.service.net);
      if found.Some? {
        var id := found.value;
        mapInfo := mapInfo[id := Refreshed(mapInfo[id], addr, nTimePenalty, now)];
        assert T() == WithInfo(t, id, mapInfo[id]);
        var wants := MayRefer(mapInfo[id], addr, draw);
        if !wants {
          return false;
        }
        UpdateKeepsInv(E(), t, id, mapInfo[id], {}, 0);
        NewIsReferenced(E(), T(), id);
        Place(id, source, now);
        return false;
      }
      CreateNewKeepsInv(E(), t, addr, source, nTimePenalty);
      var id := Create(addr, source);
      mapInfo := mapInfo[id := mapInfo[id].(addr := addr.(time := U32(Max(0, addr.time - nTimePenalty))))];
      nNew := nNew + 1;
      assert T() == CreateNew(t, addr, source, nTimePenalty);
      Place(id, source, now);
      return true;
    }

    /** Whether a known entry gets another reference: each one it has makes that twice as unlikely. */
    static method MayRefer(info: Info, addr: Address, draw: nat) returns (wants: bool)
      ensures wants <==> WantsReference(info, addr, draw)
    {
      if addr.time == 0 || (info.addr.time != 0 && addr.time <= info.addr.time) {
        return false;
      }
      if info.inTried || info.refCount == NEW_BUCKETS_PER_ADDRESS {
        return false;
      }
      var nFactor, n := 1, 0;
      while n < info.refCount
        invariant 0 <= n && (n <= info.refCount || n == 0) && nFactor == Pow(2, n) && nFactor >= 1 && (n > 0 ==> nFactor > 1)
      {
        nFactor := nFactor * 2;
        n := n + 1;
      }
      wants := nFactor <= 1 || draw % nFactor == 0;
    }

    /** Stores a reference to an entry in the slot its source maps it to, unless that slot is taken and keeps its entry. */
    method Place(id: int, source: NetAddr, now: int)
      requires Shape() && id in mapInfo && !mapInfo[id].inTried && 0 <= mapInfo[id].refCount < NEW_BUCKETS_PER_ADDRESS
      requires Inv(E(), T(), if mapInfo[id].refCount == 0 then {id} else {}, 0)
      modifies this, vvNew
      ensures T() == AddrTables.Place(E(), old(T()), id, source, now) && nKey == old(nKey)
    {
      hide Occupied, Inv, AddrTables.ClearNew, AddrTables.Delete, IsTerrible, NewBucket, TriedBucket, BucketPosition;
      ghost var t, loose := T(), if mapInfo[id].refCount == 0 then {id} else {};
      var nUBucket := NewBucket(E(), mapInfo[id].addr.service, source);
      var nUBucketPos := BucketPosition(E(), mapInfo[id].addr.service, true, nUBucket);
      ghost var s := (nUBucket, nUBucketPos);
      assert s == NewSlot(E(), mapInfo[id].addr.service, source);
      IdIsNat(E(), t, id, loose, 0);
      SlotIsFree(vvNew, nUBucket, nUBucketPos);
      if vvNew[nUBucket, nUBucketPos] != id {
        var fInsert := vvNew[nUBucket, nUBucketPos] == -1;
        if !fInsert {
          SlotIsKnown(E(), t, s, loose, 0);
          fInsert := Yields(mapInfo[vvNew[nUBucket, nUBucketPos]], mapInfo[id].refCount, now);
        }
        if fInsert {
          ClearedFor(E(), t, s, id, loose);
          ClearNew(nUBucket, nUBucketPos, loose, 0);
          mapInfo := mapInfo[id := mapInfo[id].(refCount := mapInfo[id].refCount + 1)];
          SetSlot(vvNew, nUBucket, nUBucketPos, id);
        } else if mapInfo[id].refCount == 0 {
          RandomOf(E(), t, loose, 0);
          Delete(id);
        }
      }
    }

    method Attempt_(addr: Service, nTime: int)
      requires Valid()
      modifies this
      ensures Valid() && T() == AddrTables.Attempt(old(T()), addr, nTime) && nKey == old(nKey)
    {
      hide Occupied, Inv;
      ghost var t := T();
      FindIsSound(E(), t, addr.net);
      AttemptKeepsConsistent(E(), t, addr, nTime);
      var found := Find(addr.net);
      if found.None? {
        return;
      }
      var id := found.value;
      if mapInfo[id].addr.service != addr {
        return;
      }
      mapInfo := mapInfo[id := mapInfo[id].(lastTry := nTime, attempts := mapInfo[id].attempts + 1)];
    }

    method Connected_(addr: Service, nTime: int)
      requires Valid()
      modifies this
      ensures Valid() && T() == AddrTables.Connected(old(T()), addr, nTime) && nKey == old(nKey)
    {
      hide Occupied, Inv;
      ghost var t := T();
      FindIsSound(E(), t, addr.net);
      ConnectedKeepsConsistent(E(), t, addr, nTime);
      var found := Find(addr.net);
      if found.None? {
        return;
      }
      var id := found.value;
      if mapInfo[id].addr.service != addr {
        return;
      }
      var nUpdateInterval := 20 * 60;
      if nTime - mapInfo[id].addr.time > nUpdateInterval {
        mapInfo := mapInfo[id := mapInfo[id].(addr := mapInfo[id].addr.(time := U32(nTime)))];
      }
    }

    /** Selects several addresses at once; `draw` gives the random draw of each round. */
    method GetAddr_(draw: nat -> nat, now: int) returns (vAddr: seq<Address>, ghost ids: seq<int>)
      requires Valid()
      modifies this
      ensures Valid() && (T(), ids) == AddrTables.GetAddr(old(T()), draw, now) && nKey == old(nKey)
      ensures |vAddr| == |ids|
      ensures forall k :: 0 <= k < |ids| ==> ids[k] in old(mapInfo) && vAddr[k] == old(mapInfo)[ids[k]].addr
    {
      hide Occupied, Consistent, RandomIndex, SameButPosition, AddrTables.SwapRandom, IsTerrible, Choose;
      ghost var t := T();
      vAddr, ids := [], [];
      var nNodes := AddrLimit(|vRandom|);
      SameAsItself(mapInfo);
      var n := 0;
      while n < |vRandom| && |vAddr| < nNodes
        invariant 0 <= n <= |vRandom| == |t.random| && Consistent(E(), T()) && nKey == old(nKey)
        invariant Choose(T(), n, ids, draw, now) == Choose(t, 0, [], draw, now)
        invariant SameButPosition(t.info, mapInfo) && |vAddr| == |ids|
        invariant forall k :: 0 <= k < |ids| ==> ids[k] in t.info && vAddr[k] == t.info[ids[k]].addr
        decreases |vRandom| - n
      {
        ghost var u := T();
        var nRndPos := draw(n) % (|vRandom| - n) + n;
        RoundKeeps(E(), u, t.info, n, draw);
        ChooseNext(u, n, ids, draw, now);
        SwapRandom(n, nRndPos);
        assert vRandom[n] in mapInfo;
        if !IsTerrible(mapInfo[vRandom[n]], now) {
          vAddr := vAddr + [mapInfo[vRandom[n]].addr];
          ids := ids + [vRandom[n]];
        }
        n := n + 1;
      }
      ChooseEnd(T(), n, ids, draw, now);
    }

    // ----- serialization

    method Serialize() returns (s: Stream)
      requires Valid()
      ensures nIdCount >= 0 && s == Serialized(E(), T())
    {
      hide Occupied, Consistent, EntryTokens, BucketsTokens;
      IdCountIsNat(E(), T());
      ListSizes(E(), T());
      ListIdsAre(mapInfo, nIdCount, false);
      ListIdsAre(mapInfo, nIdCount, true);
      ghost var header := Header(E(), T());
      s := [Num(1), Num(32), Num(nKey), Num(nNew), Num(nTried), Num(FlipBit30(NEW_BUCKETS))];
      var news, mapUnkIds := WriteNew();
      var trieds := WriteTried();
      s := s + news + trieds;
      ghost var entries := s;
      var bucket := 0;
      NoBuckets(mapInfo, T().newAt);
      while bucket < NEW_BUCKETS
        invariant 0 <= bucket <= NEW_BUCKETS
        invariant s == entries + BucketsTokens(mapInfo, T().newAt, bucket)
      {
        OneMoreBucket(mapInfo, T().newAt, bucket);
        var items := WriteBucket(bucket, mapUnkIds);
        s := s + items;
        bucket := bucket + 1;
      }
    }

    /** Writes the entries that are referenced from the new table and numbers all entries on the way. */
    method WriteNew() returns (s: Stream, mapUnkIds: map<int, int>)
      requires Valid() && nIdCount >= 0
      ensures s == NewTokens(T())
      ensures forall id :: id in mapInfo ==> id in mapUnkIds && mapUnkIds[id] == Number(mapInfo, id)
    {
      hide Occupied, Consistent, EntryTokens, ListIds, EntryToken;
      ListedIffNew(E(), T());
      ListSizes(E(), T());
      var nIds, id := 0, 0;
      s, mapUnkIds := [], map[];
      NothingListed(mapInfo, false);
      while id < nIdCount
        invariant 0 <= id <= nIdCount && nIds == |ListIds(mapInfo, id, false)|
        invariant ListedKnown(mapInfo, id, false) && s == EntryTokens(mapInfo, ListIds(mapInfo, id, false))
        invariant forall k :: k in mapInfo && k < id ==> k in mapUnkIds && mapUnkIds[k] == Number(mapInfo, k)
      {
        ListNext(mapInfo, id, false);
        if id in mapInfo {
          mapUnkIds := mapUnkIds[id := nIds];
          if mapInfo[id].refCount != 0 {
            ListGrows(mapInfo, id + 1, nIdCount, false);
            assert nIds != nNew;
            s := s + [EntryToken(mapInfo[id])];
            nIds := nIds + 1;
          }
        }
        id := id + 1;
      }
    }

    method WriteTried() returns (s: Stream)
      requires Valid() && nIdCount >= 0
      ensures s == TriedTokens(T())
    {
      hide Occupied, Consistent, EntryTokens, ListIds, EntryToken;
      ListSizes(E(), T());
      var nIds, id := 0, 0;
      s := [];
      NothingListed(mapInfo, true);
      while id < nIdCount
        invariant 0 <= id <= nIdCount && nIds == |ListIds(mapInfo, id, true)|
        invariant ListedKnown(mapInfo, id, true) && s == EntryTokens(mapInfo, ListIds(mapInfo, id, true))
      {
        ListNext(mapInfo, id, true);
        if id in mapInfo && mapInfo[id].inTried {
          ListGrows(mapInfo, id + 1, nIdCount, true);
          assert nIds != nTried;
          s := s + [EntryToken(mapInfo[id])];
          nIds := nIds + 1;
        }
        id := id + 1;
      }
    }

    method WriteBucket(bucket: nat, mapUnkIds: map<int, int>) returns (s: Stream)
      requires Valid() && bucket < NEW_BUCKETS
      requires forall id :: id in mapInfo ==> id in mapUnkIds && mapUnkIds[id] == Number(mapInfo, id)
      ensures s == BucketTokens(mapInfo, T().newAt, bucket)
    {
      hide Occupied, Consistent, Number;
      var nSize, i := 0, 0;
      while i < BUCKET_SIZE
        invariant 0 <= i <= BUCKET_SIZE
        invariant nSize == |BucketItems(mapInfo, T().newAt, bucket, i)|
      {
        SlotIsFree(vvNew, bucket, i);
        if vvNew[bucket, i] != -1 {
          nSize := nSize + 1;
        }
        i := i + 1;
      }
      s := [Num(nSize)];
      i := 0;
      while i < BUCKET_SIZE
        invariant 0 <= i <= BUCKET_SIZE
        invariant s == [Num(nSize)] + BucketItems(mapInfo, T().newAt, bucket, i)
      {
        SlotIsFree(vvNew, bucket, i);
        if vvNew[bucket, i] != -1 {
          SlotPosition(E(), T(), (bucket, i));
          var nIndex := mapUnkIds[vvNew[bucket, i]];
          s := s + [Num(nIndex)];
        }
        i := i + 1;
      }
    }

    /** Reads a stream into a fresh manager; false stands for an exception. `key` is the key `Clear` draws. */
    method Unserialize(s: Stream, key: int) returns (ok: bool)
      requires Shape() && mapInfo == map[] && mapAddr == map[]
      modifies this, vvTried, vvNew
      ensures ok <==> Unserialized(E(), s).Some?
      ensures ok ==> nKey == s[2].n && T() == Unserialized(E(), s).value
    {
      hide Occupied, LoadNew, LoadTried, LoadBuckets, Prune, Unindexed;
      Clear(key);
      if !HeaderOk(s) {
        return false;
      }
      var nVersion := s[0].n;
      nKey := s[2].n;
      nNew := s[3].n;
      nTried := s[4].n;
      var nUBuckets := s[5].n;
      if nVersion != 0 {
        nUBuckets := FlipBit30(nUBuckets);
      }
      var usable := nVersion == 1 && nUBuckets == NEW_BUCKETS;
      var rest := s[6..];
      ok, rest := ReadNew(rest, usable);
      if !ok {
        return;
      }
      nIdCount := nNew;
      ok, rest := ReadTried(rest);
      if !ok {
        return;
      }
      var bucket := 0;
      ghost var l := LoadBuckets(E(), T(), rest, 0, nUBuckets, usable);
      while bucket < nUBuckets
        invariant 0 <= bucket && nKey == s[2].n && Unindexed(mapInfo, vRandom, nIdCount) && AllRead(mapInfo, nNew)
        invariant l == LoadBuckets(E(), T(), rest, bucket, nUBuckets, usable)
        decreases nUBuckets - bucket
      {
        NextBucket(E(), T(), rest, bucket, nUBuckets, usable);
        ok, rest := ReadBucket(rest, bucket, usable);
        if !ok {
          return;
        }
        bucket := bucket + 1;
      }
      NoMoreBuckets(E(), T(), rest, bucket, nUBuckets, usable);
      UnindexedIsRandomIndex(mapInfo, vRandom, nIdCount);
      PruneLost();
    }

    method ReadNew(ts: Stream, usable: bool) returns (ok: bool, rest: Stream)
      requires Shape() && mapInfo == map[] && vRandom == []
      modifies this, vvNew
      ensures nKey == old(nKey) && nNew == old(nNew) && nTried == old(nTried)
      ensures ok ==> Unindexed(mapInfo, vRandom, nNew) && AllRead(mapInfo, nNew)
      ensures LoadNew(E(), old(T()), ts, 0, nNew, !usable) == if ok then Some(Loading(T(), rest)) else None
    {
      hide Occupied, NewBucket, BucketPosition, LoadNew, Unindexed;
      rest := ts;
      var n := 0;
      EmptyIsUnindexed(0);
      EmptyIsUnindexed(nNew);
      while n < nNew
        invariant n == 0 ==> mapInfo == map[] && vRandom == []
        invariant 0 <= n && (n <= nNew || n == 0) && nKey == old(nKey) && nNew == old(nNew) && nTried == old(nTried)
        invariant Unindexed(mapInfo, vRandom, n) && AllRead(mapInfo, n)
        invariant LoadNew(E(), old(T()), ts, 0, nNew, !usable) == LoadNew(E(), T(), rest, n, nNew, !usable)
        decreases nNew - n
      {
        NewNext(E(), T(), rest, n, nNew, !usable);
        if rest == [] || !rest[0].Entry? {
          return false, rest;
        }
        ghost var t := T();
        AppendKeepsUnindexed(mapInfo, vRandom, n, FromToken(rest[0], |vRandom|));
        mapInfo := mapInfo[n := FromToken(rest[0], |vRandom|)];
        mapAddr := mapAddr[mapInfo[n].addr.service.net := n];
        vRandom := vRandom + [n];
        if !usable {
          UpdateKeepsUnindexed(mapInfo, vRandom, n + 1, n, mapInfo[n].(refCount := mapInfo[n].refCount + 1));
          ReferFromPrimary(n);
        }
        assert T() == EnterNew(E(), t, n, rest[0], !usable);
        rest := rest[1..];
        n := n + 1;
      }
      NewNext(E(), T(), rest, n, nNew, !usable);
      ok := true;
    }

    /** Gives an entry a reference based on its primary source address, if that slot is free. */
    method ReferFromPrimary(id: int)
      requires Shape() && id in mapInfo && id != -1
      modifies this`mapInfo, vvNew
      ensures var s := NewSlot(E(), old(mapInfo)[id].addr.service, old(mapInfo)[id].source);
        T() == if s in old(T()).newAt then old(T()) else Link(old(T()), id, s)
    {
      hide Occupied, NewBucket, BucketPosition;
      var nUBucket := NewBucket(E(), mapInfo[id].addr.service, mapInfo[id].source);
      var nUBucketPos := BucketPosition(E(), mapInfo[id].addr.service, true, nUBucket);
      SlotIsFree(vvNew, nUBucket, nUBucketPos);
      if vvNew[nUBucket, nUBucketPos] == -1 {
        SetSlot(vvNew, nUBucket, nUBucketPos, id);
        mapInfo := mapInfo[id := mapInfo[id].(refCount := mapInfo[id].refCount + 1)];
      }
    }

    method ReadTried(ts: Stream) returns (ok: bool, rest: Stream)
      requires Shape() && Unindexed(mapInfo, vRandom, nIdCount) && AllRead(mapInfo, nNew)
      modifies this, vvTried
      ensures nKey == old(nKey) && nNew == old(nNew)
      ensures Unindexed(mapInfo, vRandom, nIdCount) && AllRead(mapInfo, nNew)
      ensures LoadTried(E(), old(T()), ts, 0, old(nTried)) == if ok then Some(Loading(T(), rest)) else None
    {
      hide Occupied, TriedBucket, BucketPosition, LoadTried, Unindexed;
      rest := ts;
      var nLost, n := 0, 0;
      while n < nTried
        invariant 0 <= n && nKey == old(nKey) && nNew == old(nNew) && nTried == old(nTried)
        invariant Unindexed(mapInfo, vRandom, nIdCount) && AllRead(mapInfo, nNew)
        invariant LoadTried(E(), old(T()), ts, 0, nTried)
               == LoadTried(E(), T().(nTried := nTried - nLost), rest, n, nTried)
        decreases nTried - n
      {
        ghost var t := T().(nTried := nTried - nLost);
        TriedNext(E(), t, rest, n, nTried);
        if rest == [] || !rest[0].Entry? {
          return false, rest;
        }
        var info := FromToken(rest[0], -1);
        var nKBucket := TriedBucket(E(), info.addr.service);
        var nKBucketPos := BucketPosition(E(), info.addr.service, false, nKBucket);
        SlotIsFree(vvTried, nKBucket, nKBucketPos);
        if vvTried[nKBucket, nKBucketPos] == -1 {
          info := info.(randomPos := |vRandom|, inTried := true);
          AppendKeepsUnindexed(mapInfo, vRandom, nIdCount, info);
          vRandom := vRandom + [nIdCount];
          mapInfo := mapInfo[nIdCount := info];
          mapAddr := mapAddr[info.addr.service.net := nIdCount];
          SetSlot(vvTried, nKBucket, nKBucketPos, nIdCount);
          nIdCount := nIdCount + 1;
        } else {
          nLost := nLost + 1;
        }
        assert T().(nTried := nTried - nLost) == EnterTried(E(), t, rest[0]);
        rest := rest[1..];
        n := n + 1;
      }
      TriedNext(E(), T().(nTried := nTried - nLost), rest, n, nTried);
      nTried := nTried - nLost;
      ok := true;
    }

    method ReadBucket(ts: Stream, bucket: nat, usable: bool) returns (ok: bool, rest: Stream)
      requires Shape() && (usable ==> bucket < NEW_BUCKETS)
      requires Unindexed(mapInfo, vRandom, nIdCount) && AllRead(mapInfo, nNew)
      modifies this, vvNew
      ensures nKey == old(nKey) && nIdCount == old(nIdCount)
      ensures Unindexed(mapInfo, vRandom, nIdCount) && AllRead(mapInfo, nNew)
      ensures !ok ==> ts == [] || !ts[0].Num? || LoadBucket(E(), old(T()), ts[1..], bucket, 0, ts[0].n, usable) == None
      ensures ok ==> ts != [] && ts[0].Num?
      ensures ok ==> LoadBucket(E(), old(T()), ts[1..], bucket, 0, ts[0].n, usable) == Some(Loading(T(), rest))
    {
      hide Occupied, BucketPosition, LoadBucket, Unindexed;
      rest := ts;
      if rest == [] || !rest[0].Num? {
        return false, rest;
      }
      var nSize := rest[0].n;
      rest := rest[1..];
      var n := 0;
      while n < nSize
        invariant 0 <= n && nKey == old(nKey) && nIdCount == old(nIdCount)
        invariant Unindexed(mapInfo, vRandom, nIdCount) && AllRead(mapInfo, nNew)
        invariant LoadBucket(E(), old(T()), ts[1..], bucket, 0, nSize, usable)
               == LoadBucket(E(), T(), rest, bucket, n, nSize, usable)
        decreases nSize - n
      {
        BucketNext(E(), T(), rest, bucket, n, nSize, usable);
        if rest == [] || !rest[0].Num? {
          return false, rest;
        }
        ghost var t := T();
        var nIndex := rest[0].n;
        if 0 <= nIndex < nNew {
          assert nIndex in mapInfo;
          var nUBucketPos := BucketPosition(E(), mapInfo[nIndex].addr.service, true, bucket);
          if usable {
            SlotIsFree(vvNew, bucket, nUBucketPos);
            if vvNew[bucket, nUBucketPos] == -1 && mapInfo[nIndex].refCount < NEW_BUCKETS_PER_ADDRESS {
              UpdateKeepsUnindexed(mapInfo, vRandom, nIdCount, nIndex,
                                   mapInfo[nIndex].(refCount := mapInfo[nIndex].refCount + 1));
              mapInfo := mapInfo[nIndex := mapInfo[nIndex].(refCount := mapInfo[nIndex].refCount + 1)];
              SetSlot(vvNew, bucket, nUBucketPos, nIndex);
            }
          }
        }
        assert T() == EnterRef(E(), t, bucket, nIndex, usable);
        rest := rest[1..];
        n := n + 1;
      }
      BucketNext(E(), T(), rest, bucket, n, nSize, usable);
      ok := true;
    }

    /** Deletes the entries that are in no table because of collisions. */
    method PruneLost()
      requires Shape() && RandomIndex(mapInfo, vRandom)
      modifies this
      ensures T() == Prune(old(T()), 0) && nKey == old(nKey)
    {
      hide Occupied, AddrTables.Delete;
      var id := 0;
      while id < nIdCount
        invariant RandomIndex(mapInfo, vRandom) && nKey == old(nKey)
        invariant Prune(old(T()), 0) == Prune(T(), id)
        decreases nIdCount - id
      {
        if id in mapInfo && !mapInfo[id].inTried && mapInfo[id].refCount == 0 {
          DeleteKeepsIdCount(T(), id);
          DeleteKeepsRandomIndex(T(), id);
          Delete(id);
        }
        id := id + 1;
      }
    }
  }

  // ----- facts the methods need

  /** An entry of the new table is referenced from some bucket. */
  lemma ReferenceExists(e: Env, t: Tables, id: int) returns (b: nat)
    requires Consistent(e, t) && id in t.info && !t.info[id].inTried
    ensures b < NEW_BUCKETS
    ensures SlotIn(e, t.info[id].addr.service, b) in t.newAt && t.newAt[SlotIn(e, t.info[id].addr.service, b)] == id
  {
    NewIsReferenced(e, t, id);
    RefCountIsCardinality(e, t, id, {}, 0);
    var s :| s in Refs(t.newAt, id);
    SlotPosition(e, t, s);
    SlotBounds(e, t, s);
    b := s.0;
  }

  lemma NewIsReferenced(e: Env, t: Tables, id: int)
    requires Consistent(e, t) && id in t.info && !t.info[id].inTried
    ensures 1 <= t.info[id].refCount <= NEW_BUCKETS_PER_ADDRESS
  {
    hide AddrIndex, RandomIndex, TriedIndex, NewIndex, RefCounts, Counted;
  }

  /** The round in which a search that starts at `nRnd` reaches bucket `b`. */
  lemma RoundOf(b: nat, nRnd: nat) returns (m: nat)
    requires b < NEW_BUCKETS
    ensures m < NEW_BUCKETS && (m + nRnd) % NEW_BUCKETS == b
  {
    var r := nRnd % NEW_BUCKETS;
    m := if r <= b then b - r else b + NEW_BUCKETS - r;
    assert nRnd == nRnd / NEW_BUCKETS * NEW_BUCKETS + r;
  }

  lemma IdIsNat(e: Env, t: Tables, id: int, loose: set<int>, pending: int)
    requires Inv(e, t, loose, pending) && id in t.info
    ensures id >= 0
  {
    hide AddrIndex, RandomIndex, TriedIndex, NewIndex, RefCounts, Referenced, Counted;
  }

  /** Emptying a slot that does not hold `id` leaves `id` as it is. */
  lemma ClearedFor(e: Env, t: Tables, s: Slot, id: int, loose: set<int>)
    requires Inv(e, t, loose, 0) && id in t.info && loose <= {id}
    requires s in t.newAt ==> t.newAt[s] != id
    ensures id in ClearNew(t, s).info && SameEntry(t.info[id], ClearNew(t, s).info[id])
    ensures s !in t.newAt ==> ClearNew(t, s) == t
  {
    hide Inv;
    if s in t.newAt {
      ClearNewEffect(e, t, s, loose, 0);
    }
  }

  lemma SameAsItself(info: map<int, Info>)
    ensures SameButPosition(info, info)
  {
  }

  /** What holds after one round of the partial shuffle. */
  lemma RoundKeeps(e: Env, u: Tables, info: map<int, Info>, n: nat, draw: nat -> nat)
    requires Consistent(e, u) && n < |u.random| && SameButPosition(info, u.info)
    ensures RandomIndex(u.info, u.random)
    ensures var v := ShuffleAt(u, n, draw);
      && Consistent(e, v) && SameButPosition(info, v.info)
      && v.random[n] in v.info && v.random[n] in info && v.info[v.random[n]].addr == info[v.random[n]].addr
  {
    RandomOf(e, u, {}, 0);
    ShuffleKeepsConsistent(e, u, n, draw);
    ShuffleEffect(u, n, draw);
    SameButPositionTrans(info, u.info, ShuffleAt(u, n, draw).info);
    hide Consistent, SameButPosition, ShuffleAt, RandomIndex;
    RandomIdKnown(e, ShuffleAt(u, n, draw), info, n);
  }

  lemma ChooseNext(u: Tables, n: nat, ids: seq<int>, draw: nat -> nat, now: int)
    requires n < |u.random| && |ids| < AddrLimit(|u.random|)
    ensures var v := ShuffleAt(u, n, draw);
      var chosen := v.random[n] in v.info && !IsTerrible(v.info[v.random[n]], now);
      Choose(u, n, ids, draw, now) == Choose(v, n + 1, if chosen then ids + [v.random[n]] else ids, draw, now)
  {
    hide ShuffleAt, IsTerrible;
  }

  lemma ChooseEnd(u: Tables, n: nat, ids: seq<int>, draw: nat -> nat, now: int)
    requires n >= |u.random| || |ids| >= AddrLimit(|u.random|)
    ensures Choose(u, n, ids, draw, now) == (u, ids)
  {
  }

  lemma RandomIdKnown(e: Env, t: Tables, info: map<int, Info>, n: nat)
    requires Consistent(e, t) && n < |t.random| && SameButPosition(info, t.info)
    ensures t.random[n] in t.info && t.random[n] in info && t.info[t.random[n]].addr == info[t.random[n]].addr
  {
    hide AddrIndex, TriedIndex, NewIndex, RefCounts, Referenced, Counted;
    var id: int := t.random[n];
    assert id in t.info && id in info && SameEntry(info[id], t.info[id]);
  }

  /** While the manager is being rebuilt: the random order indexes the entries, and all ids are below `limit`. */
  ghost predicate Unindexed(info: map<int, Info>, random: seq<int>, limit: int)
  {
    RandomIndex(info, random) && forall id :: id in info ==> id < limit
  }

  /** All entries with numbers below `n` have been read. */
  ghost predicate AllRead(info: map<int, Info>, n: int)
  {
    forall k :: 0 <= k < n ==> k in info
  }

  lemma EmptyIsUnindexed(limit: int)
    ensures Unindexed(map[], [], limit)
  {
  }

  lemma UnindexedIsRandomIndex(info: map<int, Info>, random: seq<int>, limit: int)
    requires Unindexed(info, random, limit)
    ensures RandomIndex(info, random)
  {
  }

  lemma AppendKeepsUnindexed(info: map<int, Info>, random: seq<int>, n: int, i: Info)
    requires Unindexed(info, random, n) && i.randomPos == |random|
    ensures Unindexed(info[n := i], random + [n], n + 1)
  {
  }

  lemma UpdateKeepsUnindexed(info: map<int, Info>, random: seq<int>, limit: int, id: int, i: Info)
    requires Unindexed(info, random, limit) && id in info && i.randomPos == info[id].randomPos
    ensures Unindexed(info[id := i], random, limit)
  {
  }

  lemma NewNext(e: Env, t: Tables, ts: Stream, n: int, count: int, fallback: bool)
    ensures LoadNew(e, t, ts, n, count, fallback) ==
      if n >= count then Some(Loading(t, ts))
      else if ts == [] || !ts[0].Entry? then None
      else LoadNew(e, EnterNew(e, t, n, ts[0], fallback), ts[1..], n + 1, count, fallback)
  {
    hide EnterNew;
  }

  lemma TriedNext(e: Env, t: Tables, ts: Stream, n: int, count: int)
    ensures LoadTried(e, t, ts, n, count) ==
      if n >= count then Some(Loading(t, ts))
      else if ts == [] || !ts[0].Entry? then None
      else LoadTried(e, EnterTried(e, t, ts[0]), ts[1..], n + 1, count)
  {
    hide EnterTried;
  }

  lemma BucketNext(e: Env, t: Tables, ts: Stream, b: int, n: int, size: int, usable: bool)
    ensures LoadBucket(e, t, ts, b, n, size, usable) ==
      if n >= size then Some(Loading(t, ts))
      else if ts == [] || !ts[0].Num? then None
      else LoadBucket(e, EnterRef(e, t, b, ts[0].n, usable), ts[1..], b, n + 1, size, usable)
  {
    hide EnterRef;
  }

  lemma DeleteKeepsRandomIndex(t: Tables, id: int)
    requires RandomIndex(t.info, t.random) && id in t.info
    ensures RandomIndex(Delete(t, id).info, Delete(t, id).random)
  {
    var u := SwapRandom(t, t.info[id].randomPos, |t.random| - 1);
    SwapMovesLast(t, id);
    SwapKeepsRandomIndex(t, t.info[id].randomPos, |t.random| - 1);
    hide SwapRandom;
    RemoveLastRandom(u.info, u.random, id);
  }

  lemma RemoveLastRandom(info: map<int, Info>, random: seq<int>, id: int)
    requires RandomIndex(info, random) && id in info && info[id].randomPos == |random| - 1
    ensures RandomIndex(info - {id}, random[..|random| - 1])
  {
  }

  lemma NextBucket(e: Env, t: Tables, ts: Stream, b: int, count: int, usable: bool)
    requires b < count
    ensures ts == [] || !ts[0].Num? ==> LoadBuckets(e, t, ts, b, count, usable) == None
    ensures ts != [] && ts[0].Num? ==>
      match LoadBucket(e, t, ts[1..], b, 0, ts[0].n, usable)
      case None => LoadBuckets(e, t, ts, b, count, usable) == None
      case Some(l) => LoadBuckets(e, t, ts, b, count, usable) == LoadBuckets(e, l.t, l.rest, b + 1, count, usable)
  {
    hide LoadBucket;
  }

  lemma NoMoreBuckets(e: Env, t: Tables, ts: Stream, b: int, count: int, usable: bool)
    requires b >= count
    ensures LoadBuckets(e, t, ts, b, count, usable) == Some(Loading(t, ts))
  {
  }

  // ----- what the writing loops need

  ghost predicate ListedKnown(info: map<int, Info>, n: nat, tried: bool)
  {
    forall k :: 0 <= k < |ListIds(info, n, tried)| ==> ListIds(info, n, tried)[k] in info
  }

  lemma NothingListed(info: map<int, Info>, tried: bool)
    ensures ListIds(info, 0, tried) == [] && EntryTokens(info, []) == []
  {
  }

  lemma ListNext(info: map<int, Info>, n: nat, tried: bool)
    requires ListedKnown(info, n, tried)
    ensures ListedKnown(info, n + 1, tried)
    ensures ListIds(info, n + 1, tried) ==
      ListIds(info, n, tried) + (if n in info && Listed(info[n], tried) then [n] else [])
    ensures EntryTokens(info, ListIds(info, n + 1, tried)) ==
      EntryTokens(info, ListIds(info, n, tried))
      + (if n in info && Listed(info[n], tried) then [EntryToken(info[n])] else [])
  {
    hide Listed, EntryToken;
  }

  lemma OneMoreBucket(info: map<int, Info>, newAt: map<Slot, int>, b: nat)
    ensures BucketsTokens(info, newAt, b + 1) == BucketsTokens(info, newAt, b) + BucketTokens(info, newAt, b)
  {
    hide BucketTokens;
  }

  lemma {:induction false} ListGrows(info: map<int, Info>, n: nat, m: nat, tried: bool)
    requires n <= m
    ensures |ListIds(info, n, tried)| <= |ListIds(info, m, tried)|
  {
    if n < m { ListGrows(info, n, m - 1, tried); }
  }
}
