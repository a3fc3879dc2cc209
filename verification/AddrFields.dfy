/**
 * What the address manager's operations do, in terms of the fields of entries, with the limits spelled out.
 */
module AddrFields {
  import opened AddrTables
  import opened AddrInvariant
  import opened AddrOperations
  import opened AddrTheorems
  import opened Radix
  import opened Wrappers

  // ----- which entries are of no use any more

  /**
   * The entry was not tried in the last minute, and it was never seen, or is from the future by more than ten minutes,
   * or was last seen more than 30 days ago, or was tried three times without ever a success, or ten times with none in
   * the last week.
   */
  predicate IsStale(i: Info, now: int)
  {
    && (i.lastTry == 0 || i.lastTry < now - 60)
    && (|| i.addr.time == 0
        || i.addr.time > now + 600
        || i.addr.time < now - 30 * 24 * 60 * 60
        || (i.lastSuccess == 0 && i.attempts >= 3)
        || (i.lastSuccess < now - 7 * 24 * 60 * 60 && i.attempts >= 10))
  }

  lemma TerribleIsStale(i: Info, now: int)
    ensures IsTerrible(i, now) <==> IsStale(i, now)
  {
  }

  /** Only entries that are known and not stale are handed out, and all of them if the limit allows. */
  lemma HandedOut(e: Env, t: Tables, draw: nat -> nat, now: int)
    requires Consistent(e, t)
    ensures var ids := GetAddr(t, draw, now).1;
      && (forall id :: id in ids ==> id in t.info && !IsStale(t.info[id], now))
      && |ids| <= 2500 && 100 * |ids| <= 23 * |t.info|
      && (|ids| < 2500 && 100 * (|ids| + 1) <= 23 * |t.info| ==>
            forall id :: id in t.info && !IsStale(t.info[id], now) ==> id in ids)
  {
    GetAddrCorrect(e, t, draw, now);
    hide Consistent, GetAddr, IsTerrible, IsStale;
    forall id | id in t.info ensures IsTerrible(t.info[id], now) <==> IsStale(t.info[id], now) {
      TerribleIsStale(t.info[id], now);
    }
  }

  /** The draw of round `n` decides which of the ids not yet looked at comes next; every one of them can. */
  lemma ShufflePicks(e: Env, t: Tables, n: nat, j: nat, draw: nat -> nat)
    requires Consistent(e, t) && n <= j < |t.random| && draw(n) % (|t.random| - n) == j - n
    ensures ShuffleAt(t, n, draw).random[n] == t.random[j]
  {
    hide *;
    ConsistentIs(e, t);
    RandomOf(e, t, {}, 0);
    ShuffleIs(t, n, j, draw);
    SwapPicks(t, n, j);
  }

  lemma ShuffleIs(t: Tables, n: nat, j: nat, draw: nat -> nat)
    requires n <= j < |t.random| && draw(n) % (|t.random| - n) == j - n
    ensures ShuffleAt(t, n, draw) == SwapRandom(t, n, j)
  {
    hide SwapRandom;
  }

  lemma SwapPicks(t: Tables, i: nat, j: nat)
    requires RandomIndex(t.info, t.random) && i < |t.random| && j < |t.random|
    ensures SwapRandom(t, i, j).random[i] == t.random[j]
  {
  }

  // ----- which address is stored

  /** The slot is free, or its occupant gives way to an entry that has no reference yet. */
  ghost predicate IsOpen(t: Tables, s: Slot, now: int)
  {
    s in t.newAt ==> t.newAt[s] in t.info && (t.info[t.newAt[s]].refCount > 1 || IsStale(t.info[t.newAt[s]], now))
  }

  /** The slot is free, or its occupant gives way to one that has references already: only a stale one does. */
  ghost predicate IsOpenToMore(t: Tables, s: Slot, now: int)
  {
    s in t.newAt ==> t.newAt[s] in t.info && IsStale(t.info[t.newAt[s]], now)
  }

  lemma AcceptsIff(t: Tables, s: Slot, refCount: nat, now: int)
    ensures Accepts(t, s, refCount, now) <==> if refCount == 0 then IsOpen(t, s, now) else IsOpenToMore(t, s, now)
  {
    hide IsTerrible, IsStale;
    if s in t.newAt && t.newAt[s] in t.info { TerribleIsStale(t.info[t.newAt[s]], now); }
  }

  /** The entry of an address just learnt: what was announced, made older by the penalty, and no history. */
  ghost predicate IsAnnounced(i: Info, addr: Address, source: NetAddr, penalty: int)
  {
    && i.addr.service == addr.service && i.addr.services == addr.services && i.source == source
    && i.addr.time == (if addr.time < penalty then 0 else (addr.time - penalty) % 0x1_0000_0000)
    && i.lastSuccess == 0 && i.lastTry == 0 && i.attempts == 0 && !i.inTried
  }

  lemma CreatedIs(t: Tables, addr: Address, source: NetAddr, penalty: int)
    ensures var u := CreateNew(t, addr, source, penalty);
      && t.idCount in u.info && u.info[t.idCount].refCount == 0
      && IsAnnounced(u.info[t.idCount], addr, source, penalty)
  {
  }

  ghost predicate SameButRefCount(i: Info, j: Info)
  {
    SameEntry(i.(refCount := j.refCount), j)
  }

  /** What storing a reference to entry `id` in slot `s` leaves of the entries, if it is done or not. */
  ghost predicate Placed(t: Tables, u: Tables, id: int, s: Slot, accepted: bool)
    requires id in t.info
  {
    && (id in u.info ==>
          SameButRefCount(t.info[id], u.info[id])
          && u.info[id].refCount == t.info[id].refCount + if accepted && !(s in t.newAt && t.newAt[s] == id) then 1 else 0)
    && (forall k :: k in t.info && k != id && !(accepted && s in t.newAt && t.newAt[s] == k) ==>
          k in u.info && SameEntry(t.info[k], u.info[k]))
  }

  lemma PlacedEntries(e: Env, t: Tables, id: int, source: NetAddr, now: int)
    requires id in t.info && !t.info[id].inTried && 0 <= t.info[id].refCount < NEW_BUCKETS_PER_ADDRESS
    requires Inv(e, t, if t.info[id].refCount == 0 then {id} else {}, 0)
    ensures var s := NewSlot(e, t.info[id].addr.service, source);
      Placed(t, Place(e, t, id, source, now), id, s, Accepts(t, s, t.info[id].refCount, now))
  {
    hide Inv, Yields, ClearNew, Delete, Link, NewSlot, Placed, OnlyTouches;
    var loose, s := if t.info[id].refCount == 0 then {id} else {}, NewSlot(e, t.info[id].addr.service, source);
    RandomOf(e, t, loose, 0);
    DeleteTouches(t, id);
    DeletedIsPlaced(t, Delete(t, id), id, s);
    LinkedIsPlaced(t, t, id, s);
    if s in t.newAt {
      SlotIsKnown(e, t, s, loose, 0);
      if t.newAt[s] != id {
        ClearNewEffect(e, t, s, loose, 0);
        TouchedIsPlaced(t, ClearNew(t, s), id, s);
      }
    }
  }

  lemma DeletedIsPlaced(t: Tables, u: Tables, id: int, s: Slot)
    requires id in t.info && OnlyTouches(t, u, id) && id !in u.info
    ensures Placed(t, u, id, s, false)
  {
  }

  lemma LinkedIsPlaced(t: Tables, u: Tables, id: int, s: Slot)
    requires id in t.info
    ensures s !in t.newAt ==> Placed(t, Link(t, id, s), id, s, true)
    ensures Placed(t, t, id, s, false) && (s in t.newAt && t.newAt[s] == id ==> Placed(t, t, id, s, true))
  {
  }

  lemma TouchedIsPlaced(t: Tables, u: Tables, id: int, s: Slot)
    requires id in t.info && s in t.newAt && t.newAt[s] != id && OnlyTouches(t, u, t.newAt[s])
    ensures id in u.info && Placed(t, Link(u, id, s), id, s, true)
  {
  }

  /**
   * Exactly which unknown addresses are stored: those whose one slot is free, or held by an entry that has another
   * reference or is stale. That entry loses its reference there. Otherwise it keeps the slot and nothing changes there.
   */
  lemma AddStores(e: Env, t: Tables, addr: Address, source: NetAddr, penalty: int, now: int, draw: nat)
    requires Consistent(e, t) && e.routable(addr.service.net) && addr.service.net !in t.ids
    ensures var (u, added) := Add(e, t, addr, source, penalty, now, draw); var s := NewSlot(e, addr.service, source);
      && added && (addr.service.net in u.ids <==> IsOpen(t, s, now))
      && u.newAt == (if IsOpen(t, s, now) then t.newAt[s := t.idCount] else t.newAt)
      && (IsOpen(t, s, now) ==>
            t.idCount in u.info && u.info[t.idCount].refCount == 1
            && IsAnnounced(u.info[t.idCount], addr, source, penalty))
      && (!IsOpen(t, s, now) ==>
            s in t.newAt && t.newAt[s] in t.info && t.newAt[s] in u.info
            && SameEntry(t.info[t.newAt[s]], u.info[t.newAt[s]]))
  {
    hide *;
    var v, id, s := CreateNew(t, addr, source, penalty), t.idCount, NewSlot(e, addr.service, source);
    AddIsPlace(e, t, addr, source, penalty, now, draw);
    var u := Place(e, v, id, source, now);
    SomeBuckets();
    AddOutcome(e, t, addr, source, penalty, now, draw);
    CreateNewKeepsInv(e, t, addr, source, penalty);
    CreateNewState(e, t, addr, source, penalty, s);
    CreatedIs(t, addr, source, penalty);
    AcceptsIff(t, s, 0, now);
    AcceptsSame(t, v, s, id, now);
    PlaceIsLocal(e, v, id, source, now);
    PlaceEffect(e, v, id, source, now);
    PlacedEntries(e, v, id, source, now);
    AssembleAdd(t, v, u, s, addr, source, penalty, IsOpen(t, s, now));
    NotOpen(t, s, now);
  }

  lemma AddIsPlace(e: Env, t: Tables, addr: Address, source: NetAddr, penalty: int, now: int, draw: nat)
    requires Consistent(e, t) && e.routable(addr.service.net) && addr.service.net !in t.ids
    ensures t.idCount in CreateNew(t, addr, source, penalty).info
    ensures Add(e, t, addr, source, penalty, now, draw)
      == (Place(e, CreateNew(t, addr, source, penalty), t.idCount, source, now), true)
  {
    FindIsSound(e, t, addr.service.net);
    hide Place, Inv;
  }

  lemma SomeBuckets()
    ensures NEW_BUCKETS_PER_ADDRESS == 8
  {
  }

  lemma NotOpen(t: Tables, s: Slot, now: int)
    ensures !IsOpen(t, s, now) ==> s in t.newAt
  {
  }

  /** `v` is `t` with a new entry, and `u` is what storing a reference to it leaves. */
  lemma AssembleAdd(t: Tables, v: Tables, u: Tables, s: Slot, addr: Address, source: NetAddr, penalty: int, accepted: bool)
    requires var id := t.idCount;
      && id !in t.info && id in v.info && v.info - {id} == t.info && v.newAt == t.newAt
      && v.info[id].refCount == 0 && IsAnnounced(v.info[id], addr, source, penalty)
      && Placed(v, u, id, s, accepted) && (id in u.info <==> accepted) && (s in t.newAt ==> t.newAt[s] in t.info)
    ensures accepted ==>
      t.idCount in u.info && u.info[t.idCount].refCount == 1 && IsAnnounced(u.info[t.idCount], addr, source, penalty)
    ensures !accepted && s in t.newAt ==>
      t.newAt[s] in t.info && t.newAt[s] in u.info && SameEntry(t.info[t.newAt[s]], u.info[t.newAt[s]])
  {
    forall k | k in t.info ensures k in v.info && v.info[k] == t.info[k] {
      assert (v.info - {t.idCount})[k] == t.info[k];
    }
    if !accepted && s in t.newAt { assert t.newAt[s] in v.info && t.newAt[s] != t.idCount; }
  }

  /** After forty days an entry that was not seen again gives its slot to a new address. */
  lemma DeadGivesWay()
    ensures var t := Add(SAME_SLOT, EMPTY, FIRST, 9, 0, 1000, 0).0;
      var now: nat := 1000 + 40 * 24 * 60 * 60;
      var (u, added) := Add(SAME_SLOT, t, SECOND.(time := now), 9, 0, now, 0);
      added && SECOND.service.net in u.ids && u.newAt == t.newAt[(0, 0) := t.idCount]
  {
    hide *;
    FirstIsAdded();
    EmptyIsConsistent(SAME_SLOT);
    AddKeepsConsistent(SAME_SLOT, EMPTY, FIRST, 9, 0, 1000, 0);
    FirstFields();
    var t := Add(SAME_SLOT, EMPTY, FIRST, 9, 0, 1000, 0).0;
    var now: nat := 1000 + 40 * 24 * 60 * 60;
    AddStores(SAME_SLOT, t, SECOND.(time := now), 9, 0, now, 0);
    FirstGivesWay(t, now);
  }

  lemma FirstFields()
    ensures EMPTY.idCount == 0 && SAME_SLOT.routable(1) && SAME_SLOT.routable(2)
    ensures FIRST == Address(Service(1, 80), {}, 1000) && SECOND == Address(Service(2, 80), {}, 1000)
    ensures 0 in Add(SAME_SLOT, EMPTY, FIRST, 9, 0, 1000, 0).0.info
    ensures Add(SAME_SLOT, EMPTY, FIRST, 9, 0, 1000, 0).0.info[0].addr.time == 1000
    ensures Add(SAME_SLOT, EMPTY, FIRST, 9, 0, 1000, 0).0.info[0].lastTry == 0
  {
    EmptyIsConsistent(SAME_SLOT);
    hide Add, NewSlot, Consistent;
    AddStores(SAME_SLOT, EMPTY, FIRST, 9, 0, 1000, 0);
  }

  lemma FirstGivesWay(t: Tables, now: nat)
    requires t.newAt == map[(0, 0) := 0] && 0 in t.info && t.info[0].addr.time == 1000 && t.info[0].lastTry == 0
    requires now == 1000 + 40 * 24 * 60 * 60
    ensures IsOpen(t, (0, 0), now)
  {
  }

  // ----- what a repeated announcement does

  /** The time of an entry after it is announced again: the one announced, less the penalty, if that is news enough. */
  function TimeAfter(time: nat, announced: nat, penalty: int, now: int): nat
  {
    var online := now - announced < 24 * 60 * 60;
    var isNews := time < announced - penalty - (if online then 60 * 60 else 24 * 60 * 60);
    if announced != 0 && (time == 0 || isNews) then
      if announced < penalty then 0 else (announced - penalty) % 0x1_0000_0000
    else time
  }

  /** The entry may get one more reference: it is news, not tried yet, has less than eight, and the draw is one of 2^n. */
  ghost predicate WantsMore(i: Info, announced: nat, time: nat, draw: nat)
  {
    && announced != 0 && (time == 0 || announced > time)
    && !i.inTried && 0 <= i.refCount < 8 && (PowPositive(2, i.refCount); draw % Pow(2, i.refCount) == 0)
  }

  /** Entry `id` gets another reference, in slot `s`. */
  ghost predicate GetsMore(t: Tables, id: int, s: Slot, addr: Address, penalty: int, now: int, draw: nat)
    requires id in t.info
  {
    && WantsMore(t.info[id], addr.time, TimeAfter(t.info[id].addr.time, addr.time, penalty, now), draw)
    && !(s in t.newAt && t.newAt[s] == id) && IsOpenToMore(t, s, now)
  }

  /** The entry after an announcement, with or without another reference. */
  function Announced(i: Info, addr: Address, penalty: int, now: int, more: bool): Info
  {
    i.(addr := i.addr.(time := TimeAfter(i.addr.time, addr.time, penalty, now), services := i.addr.services + addr.services),
       refCount := i.refCount + if more then 1 else 0)
  }

  /**
   * What announcing a known address does: its entry's time and services are brought up to date, and exactly if it wants
   * and gets another reference, that is stored. No other entry changes, except a stale one that gave way.
   */
  lemma AddRefreshes(e: Env, t: Tables, addr: Address, source: NetAddr, penalty: int, now: int, draw: nat)
    requires Consistent(e, t) && e.routable(addr.service.net) && addr.service.net in t.ids
    ensures var id := t.ids[addr.service.net];
      && id in t.info
      && var (u, added) := Add(e, t, addr, source, penalty, now, draw); var s := NewSlot(e, t.info[id].addr.service, source);
         var more := GetsMore(t, id, s, addr, penalty, now, draw);
      && !added && id in u.info && SameEntry(Announced(t.info[id], addr, penalty, now, more), u.info[id])
      && u.newAt == (if more then t.newAt[s := id] else t.newAt)
      && (forall k :: k in t.info && k != id && !(more && s in t.newAt && t.newAt[s] == k) ==>
            k in u.info && SameEntry(t.info[k], u.info[k]))
  {
    hide *;
    var id := t.ids[addr.service.net];
    KnownIs(e, t, addr.service.net);
    var i := Refreshed(t.info[id], addr, penalty, now);
    var v, s := WithInfo(t, id, i), NewSlot(e, t.info[id].addr.service, source);
    RefreshKeepsInv(e, t, addr, penalty, now, id);
    RefreshedIs(t, id, addr, penalty, now);
    AddIsRefresh(e, t, addr, source, penalty, now, draw, id);
    WantsIs(t, v, id, addr, penalty, now, draw);
    ConsistentIs(e, v);
    OccupantIsKnown(e, t, s);
    AcceptsIff(v, s, if i.refCount >= 0 then i.refCount else 0, now);
    OpenToMoreSame(t, v, id, s, now);
    if WantsReference(i, addr, draw) {
      PlaceIsLocal(e, v, id, source, now);
      PlaceEffect(e, v, id, source, now);
      PlacedEntries(e, v, id, source, now);
      var u := Place(e, v, id, source, now);
      AssembleRefresh(t, v, u, id, s, addr, penalty, now, Accepts(v, s, i.refCount, now));
    } else {
      UnplacedIs(v, id, s);
      AssembleRefresh(t, v, v, id, s, addr, penalty, now, false);
    }
    GetsMoreIs(t, id, s, addr, penalty, now, draw);
  }

  lemma KnownIs(e: Env, t: Tables, net: NetAddr)
    requires Consistent(e, t) && net in t.ids
    ensures t.ids[net] in t.info && Find(t, net) == Some(t.ids[net])
    ensures var i := t.info[t.ids[net]]; 0 <= i.refCount <= 8 && (!i.inTried ==> i.refCount >= 1)
  {
    hide RandomIndex, TriedIndex, NewIndex, Counted;
    var id := t.ids[net];
    assert EntryOk(id, t.info[id], t.idCount);
    assert t.info[id].refCount == |Refs(t.newAt, id)|;
  }

  lemma ConsistentIs(e: Env, t: Tables)
    ensures Consistent(e, t) <==> Inv(e, t, {}, 0)
  {
  }

  lemma OccupantIsKnown(e: Env, t: Tables, s: Slot)
    requires Consistent(e, t)
    ensures s in t.newAt ==> t.newAt[s] in t.info
  {
    hide SlotIn;
  }

  lemma RefreshedIs(t: Tables, id: int, addr: Address, penalty: int, now: int)
    requires id in t.info
    ensures Refreshed(t.info[id], addr, penalty, now) == Announced(t.info[id], addr, penalty, now, false)
    ensures var v := WithInfo(t, id, Refreshed(t.info[id], addr, penalty, now));
      && id in v.info && v.info[id] == Announced(t.info[id], addr, penalty, now, false) && v.newAt == t.newAt
      && v.info[id].addr.service == t.info[id].addr.service
      && forall k :: k in t.info && k != id ==> k in v.info && v.info[k] == t.info[k]
  {
  }

  lemma AddIsRefresh(e: Env, t: Tables, addr: Address, source: NetAddr, penalty: int, now: int, draw: nat, id: int)
    requires e.routable(addr.service.net) && Find(t, addr.service.net) == Some(id) && id in t.info
    ensures var i := Refreshed(t.info[id], addr, penalty, now);
      var v := WithInfo(t, id, i);
      Add(e, t, addr, source, penalty, now, draw)
        == (if WantsReference(i, addr, draw) then Place(e, v, id, source, now) else v, false)
  {
    hide Place, Refreshed, WantsReference;
  }

  lemma WantsIs(t: Tables, v: Tables, id: int, addr: Address, penalty: int, now: int, draw: nat)
    requires id in t.info && id in v.info && v.info[id] == Announced(t.info[id], addr, penalty, now, false)
    requires t.info[id].refCount >= 0 && t.info[id].refCount <= 8 && (!t.info[id].inTried ==> t.info[id].refCount >= 1)
    ensures WantsReference(v.info[id], addr, draw) <==>
      WantsMore(t.info[id], addr.time, TimeAfter(t.info[id].addr.time, addr.time, penalty, now), draw)
    ensures WantsReference(v.info[id], addr, draw) ==>
      !v.info[id].inTried && 0 < v.info[id].refCount < NEW_BUCKETS_PER_ADDRESS
  {
    hide TimeAfter, Pow;
  }

  lemma OpenToMoreSame(t: Tables, v: Tables, id: int, s: Slot, now: int)
    requires v.newAt == t.newAt && id in t.info
    requires forall k :: k in t.info && k != id ==> k in v.info && v.info[k] == t.info[k]
    requires s in t.newAt ==> t.newAt[s] in t.info
    ensures !(s in t.newAt && t.newAt[s] == id) ==> (IsOpenToMore(v, s, now) <==> IsOpenToMore(t, s, now))
  {
    hide IsStale;
  }

  lemma UnplacedIs(t: Tables, id: int, s: Slot)
    requires id in t.info
    ensures Placed(t, t, id, s, false)
  {
  }

  lemma GetsMoreIs(t: Tables, id: int, s: Slot, addr: Address, penalty: int, now: int, draw: nat)
    requires id in t.info
    ensures GetsMore(t, id, s, addr, penalty, now, draw) <==>
      WantsMore(t.info[id], addr.time, TimeAfter(t.info[id].addr.time, addr.time, penalty, now), draw)
      && !(s in t.newAt && t.newAt[s] == id) && IsOpenToMore(t, s, now)
  {
  }

  lemma AssembleRefresh(t: Tables, v: Tables, u: Tables, id: int, s: Slot, addr: Address, penalty: int, now: int, accepted: bool)
    requires id in t.info && id in v.info && v.newAt == t.newAt
    requires v.info[id] == Announced(t.info[id], addr, penalty, now, false)
    requires forall k :: k in t.info && k != id ==> k in v.info && v.info[k] == t.info[k]
    requires Placed(v, u, id, s, accepted) && id in u.info
    requires u.newAt == if accepted then t.newAt[s := id] else t.newAt
    ensures var more := accepted && !(s in t.newAt && t.newAt[s] == id);
      && SameEntry(Announced(t.info[id], addr, penalty, now, more), u.info[id])
      && u.newAt == (if more then t.newAt[s := id] else t.newAt)
      && (forall k :: k in t.info && k != id && !(more && s in t.newAt && t.newAt[s] == k) ==>
            k in u.info && SameEntry(t.info[k], u.info[k]))
  {
    hide TimeAfter;
  }

  // ----- the other operations

  /** Noting an attempt sets its time and counts it, in the entry with that address and port, and changes nothing else. */
  lemma AttemptNotes(e: Env, t: Tables, s: Service, time: int)
    requires Consistent(e, t)
    ensures var u := Attempt(t, s, time);
      && u == t.(info := u.info) && u.info.Keys == t.info.Keys
      && forall k :: k in t.info ==> var i := t.info[k];
           u.info[k] == if i.addr.service == s then i.(lastTry := time, attempts := i.attempts + 1) else i
  {
    FindsOnly(e, t, s);
    hide Consistent, Find;
  }

  /** Noting a connection brings the time of the entry with that address and port up to date if it is 20 minutes old. */
  lemma ConnectedNotes(e: Env, t: Tables, s: Service, time: nat)
    requires Consistent(e, t) && time < 0x1_0000_0000
    ensures var u := Connected(t, s, time);
      && u == t.(info := u.info) && u.info.Keys == t.info.Keys
      && forall k :: k in t.info ==> var i := t.info[k];
           u.info[k] == if i.addr.service == s && time > i.addr.time + 20 * 60 then i.(addr := i.addr.(time := time)) else i
  {
    hide *;
    FindsOnly(e, t, s);
    ConnectedIs(t, s, time);
  }

  lemma ConnectedIs(t: Tables, s: Service, time: nat)
    requires time < 0x1_0000_0000 && (Find(t, s.net).Some? ==> Find(t, s.net).value in t.info)
    ensures Find(t, s.net).None? ==> Connected(t, s, time) == t
    ensures Find(t, s.net).Some? ==>
      var id := Find(t, s.net).value; var i := t.info[id];
      Connected(t, s, time) ==
        if i.addr.service == s && time > i.addr.time + 20 * 60
        then t.(info := t.info[id := i.(addr := i.addr.(time := time))]) else t
  {
    hide Find;
  }

  /** At most one entry has an address, and looking the address up finds it. */
  lemma FindsOnly(e: Env, t: Tables, s: Service)
    requires Consistent(e, t)
    ensures Find(t, s.net).Some? ==> Find(t, s.net).value in t.info
    ensures forall k :: k in t.info && t.info[k].addr.service == s ==> Find(t, s.net) == Some(k)
  {
    hide RandomIndex, TriedIndex, NewIndex, RefCounts, Entries, Referenced, Counted;
    assert forall k :: k in t.info && t.info[k].addr.service == s ==> t.info[k].addr.service.net == s.net;
  }

  /** Marking an address good notes the success in its entry, which is in the tried table then and nowhere else. */
  lemma GoodNotes(e: Env, t: Tables, s: Service, time: int)
    requires Consistent(e, t) && Find(t, s.net).Some?
    requires Find(t, s.net).value in t.info && t.info[Find(t, s.net).value].addr.service == s
    ensures var id, u := Find(t, s.net).value, Good(e, t, s, time);
      id in u.info && SameEntry(
        t.info[id].(lastSuccess := time, lastTry := time, attempts := 0, refCount := 0, inTried := true), u.info[id])
  {
    hide *;
    var id, slot := Find(t, s.net).value, TriedSlot(e, s);
    MarkedHas(t, id, time);
    ConsistentIs(e, t);
    if t.info[id].inTried {
      TriedIsUnreferenced(e, t, id, {}, 0);
      TriedStays(e, t, s, time, id);
    } else {
      Prepare(e, t, id, time);
      var v := TakeOut(MarkGood(t, id, time), id);
      TakenOutIs(t, id, time);
      PreparedIsLoose(t, v, id);
      EvictKeepsInv(e, v, slot, {id}, 1);
      GoodIsTry(e, t, s, time, id);
      SettledEntry(t, v, Evict(e, v, slot), Good(e, t, s, time), id, time);
    }
  }

  lemma TriedStays(e: Env, t: Tables, s: Service, time: int, id: int)
    requires Find(t, s.net) == Some(id) && id in t.info && t.info[id].addr.service == s
    requires t.info[id].inTried && t.info[id].refCount == 0
    ensures id in Good(e, t, s, time).info && SameEntry(
      t.info[id].(lastSuccess := time, lastTry := time, attempts := 0, refCount := 0, inTried := true),
      Good(e, t, s, time).info[id])
  {
  }

  lemma TakenOutIs(t: Tables, id: int, time: int)
    requires id in t.info
    ensures var v := TakeOut(MarkGood(t, id, time), id);
      && id in v.info
      && v.info[id] == t.info[id].(lastSuccess := time, lastTry := time, attempts := 0, refCount := v.info[id].refCount)
  {
  }

  lemma PreparedIsLoose(t: Tables, v: Tables, id: int)
    requires Prepared(t, v, id)
    ensures id in v.info && v.info[id].refCount == 0 && Unreferenced(v, {id})
  {
  }

  lemma SettledEntry(t: Tables, v: Tables, w: Tables, u: Tables, id: int, time: int)
    requires id in t.info && id in v.info && id in w.info && SameEntry(v.info[id], w.info[id]) && v.info[id].refCount == 0
    requires v.info[id] == t.info[id].(lastSuccess := time, lastTry := time, attempts := 0, refCount := 0)
    requires u.info == w.info[id := w.info[id].(inTried := true)]
    ensures id in u.info && SameEntry(
      t.info[id].(lastSuccess := time, lastTry := time, attempts := 0, refCount := 0, inTried := true), u.info[id])
  {
  }

  /** The success is noted in the entry, and what it displaces gets one reference, in the slot that its own source gives. */
  lemma GoodDisplaces(e: Env, t: Tables, s: Service, time: int)
    requires Consistent(e, t) && Find(t, s.net).Some?
    requires var i := t.info[Find(t, s.net).value]; i.addr.service == s && !i.inTried
    ensures var id, u, slot := Find(t, s.net).value, Good(e, t, s, time), TriedSlot(e, s);
      slot in t.triedAt ==>
        var k := t.triedAt[slot];
        && k in t.info && k in u.info && u.info[k].refCount == 1 && !u.info[k].inTried
        && NewSlot(e, t.info[k].addr.service, t.info[k].source) in u.newAt
        && u.newAt[NewSlot(e, t.info[k].addr.service, t.info[k].source)] == k
  {
    hide *;
    var id, slot := Find(t, s.net).value, TriedSlot(e, s);
    GoodOutcome(e, t, s, time);
    if slot in t.triedAt {
      SlotsHoldTried(e, t, slot);
      FindsOnly(e, t, s);
      MarkedHas(t, id, time);
      Prepare(e, t, id, time);
      var v := TakeOut(MarkGood(t, id, time), id);
      var k := t.triedAt[slot];
      KeptByPreparing(t, v, id, k);
      GoodFromPrepared(e, t, v, id, slot);
      EvictSettles(e, v, slot);
      GoodAfterEvict(e, t, s, time, id);
    }
  }

  lemma KeptByPreparing(t: Tables, v: Tables, id: int, k: int)
    requires Prepared(t, v, id) && k in t.info && t.info[k].inTried
    ensures k != id && k in v.info && v.info[k] == t.info[k] && v.triedAt == t.triedAt
  {
  }

  lemma MarkedHas(t: Tables, id: int, time: int)
    ensures id in t.info ==> id in MarkGood(t, id, time).info
  {
  }

  lemma EvictSettles(e: Env, t: Tables, s: Slot)
    requires s in t.triedAt && t.triedAt[s] in t.info && t.triedAt[s] in Evict(e, t, s).info
    ensures var k, u := t.triedAt[s], Evict(e, t, s); var to := NewSlot(e, t.info[k].addr.service, t.info[k].source);
      u.info[k].refCount == 1 && to in u.newAt && u.newAt[to] == k
  {
    hide NewSlot, ClearNew;
  }

  lemma GoodAfterEvict(e: Env, t: Tables, s: Service, time: int, id: int)
    requires Find(t, s.net) == Some(id) && id in t.info && t.info[id].addr.service == s && !t.info[id].inTried
    requires id in Evict(e, TakeOut(MarkGood(t, id, time), id), TriedSlot(e, s)).info
    ensures var w, u := Evict(e, TakeOut(MarkGood(t, id, time), id), TriedSlot(e, s)), Good(e, t, s, time);
      && u.newAt == w.newAt && forall k :: k in w.info && k != id ==> k in u.info && u.info[k] == w.info[k]
  {
    hide TakeOut, Evict, TriedSlot;
  }

  // ----- how far a source or a group reaches

  /** What a hash comes to on the numbers below `n`, in one of `buckets`. */
  function Reached(e: Env, g: int, n: nat, buckets: nat): (r: set<nat>)
    requires buckets > 0
    ensures |r| <= n
    ensures forall h: nat :: h < n ==> e.hash([e.key, g, h]) % buckets in r
  {
    if n == 0 then {} else Reached(e, g, n - 1, buckets) + {e.hash([e.key, g, n - 1]) % buckets}
  }

  /** All that the sources of one group announce goes to at most 64 of the 1024 new buckets; and addresses of one group
      that sources of one group announce go to the same. */
  lemma NewBucketsOfGroup(e: Env, g: int) returns (buckets: set<nat>)
    ensures |buckets| <= 64 && forall s, source :: e.group(source) == g ==> NewBucket(e, s, source) in buckets
    ensures forall s: Service, r: Service, source ::
      e.group(s.net) == e.group(r.net) ==> NewBucket(e, s, source) == NewBucket(e, r, source)
    ensures forall s, source :: NewBucket(e, s, source) < 1024
  {
    buckets := Reached(e, g, 64, 1024);
  }

  /** All addresses of one group go to at most 8 of the 256 tried buckets. */
  lemma TriedBucketsOfGroup(e: Env, g: int) returns (buckets: set<nat>)
    ensures |buckets| <= 8 && forall s: Service :: e.group(s.net) == g ==> TriedBucket(e, s) in buckets
    ensures forall s :: TriedBucket(e, s) < 256
  {
    buckets := Reached(e, g, 8, 256);
  }
}
