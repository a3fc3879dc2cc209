/**
 * The address manager's tables as values, and what each of its operations does to them.
 * The class CAddrMan is proved against these functions.
 */
module AddrTables {
  import opened Radix
  import opened Wrappers

  // ----- addresses and entries

  /** The identity of a network address, without the port. */
  type NetAddr = nat

  datatype Service = Service(net: NetAddr, port: nat)

  datatype Address = Address(service: Service, services: set<nat>, time: nat)

  datatype Info = Info(addr: Address, source: NetAddr, lastSuccess: int, lastTry: int, attempts: int,
                       refCount: int, inTried: bool, randomPos: int)

  function Fresh(addr: Address, source: NetAddr): Info
  {
    Info(addr, source, 0, 0, 0, 0, false, -1)
  }

  // ----- where an entry may be stored

  /** A bucket and a position in it. */
  type Slot = (nat, nat)

  const TRIED_BUCKETS: nat := 256
  const NEW_BUCKETS: nat := 1024
  const BUCKET_SIZE: nat := 64
  const TRIED_BUCKETS_PER_GROUP: nat := 8
  const NEW_BUCKETS_PER_SOURCE_GROUP: nat := 64
  const NEW_BUCKETS_PER_ADDRESS: nat := 8
  const HORIZON_DAYS: nat := 30
  const RETRIES: nat := 3
  const MAX_FAILURES: nat := 10
  const MIN_FAIL_DAYS: nat := 7
  const GETADDR_MAX_PCT: nat := 23
  const GETADDR_MAX: nat := 2500
  const DAY: nat := 24 * 60 * 60

  /** The secret key and the functions an address manager relies on: an arbitrary hash of what is written
      to it, the group of an address, and whether an address is routable. */
  datatype Env = Env(key: int, hash: seq<int> -> nat, group: NetAddr -> int, routable: NetAddr -> bool)

  function TriedBucket(e: Env, s: Service): (bucket: nat)
    ensures bucket < TRIED_BUCKETS
  {
    var hash1 := e.hash([e.key, s.net, s.port]);
    e.hash([e.key, e.group(s.net), hash1 % TRIED_BUCKETS_PER_GROUP]) % TRIED_BUCKETS
  }

  function NewBucket(e: Env, s: Service, source: NetAddr): (bucket: nat)
    ensures bucket < NEW_BUCKETS
  {
    var hash1 := e.hash([e.key, e.group(s.net), e.group(source)]);
    e.hash([e.key, e.group(source), hash1 % NEW_BUCKETS_PER_SOURCE_GROUP]) % NEW_BUCKETS
  }

  function BucketPosition(e: Env, s: Service, isNew: bool, bucket: nat): (position: nat)
    ensures position < BUCKET_SIZE
  {
    e.hash([e.key, if isNew then 'N' as int else 'K' as int, bucket, s.net, s.port]) % BUCKET_SIZE
  }

  function TriedSlot(e: Env, s: Service): Slot
  {
    (TriedBucket(e, s), BucketPosition(e, s, false, TriedBucket(e, s)))
  }

  /** The only slot of new bucket `b` that may hold an entry for service `s`. */
  function SlotIn(e: Env, s: Service, b: nat): Slot
  {
    (b, BucketPosition(e, s, true, b))
  }

  function NewSlot(e: Env, s: Service, source: NetAddr): Slot
  {
    SlotIn(e, s, NewBucket(e, s, source))
  }

  predicate IsTerrible(i: Info, now: int)
  {
    if i.lastTry != 0 && i.lastTry >= now - 60 then false
    else
      || i.addr.time > now + 10 * 60
      || i.addr.time == 0
      || now - i.addr.time > HORIZON_DAYS * DAY
      || (i.lastSuccess == 0 && i.attempts >= RETRIES)
      || (now - i.lastSuccess > MIN_FAIL_DAYS * DAY && i.attempts >= MAX_FAILURES)
  }

  // ----- the tables

  /** All five indexes and the counters. Only occupied bucket slots are keys of `triedAt` and `newAt`. */
  datatype Tables = Tables(
    idCount: int,
    info: map<int, Info>,
    ids: map<NetAddr, int>,
    random: seq<int>,
    triedAt: map<Slot, int>,
    newAt: map<Slot, int>,
    nTried: int,
    nNew: int)

  const EMPTY := Tables(0, map[], map[], [], map[], map[], 0, 0)

  ghost function WithInfo(t: Tables, id: int, i: Info): Tables
  {
    t.(info := t.info[id := i])
  }

  /** The slots of the new table that refer to `id`. */
  ghost function Refs(newAt: map<Slot, int>, id: int): set<Slot>
  {
    set s | s in newAt && newAt[s] == id
  }

  ghost function TriedIds(info: map<int, Info>): set<int>
  {
    set id | id in info && info[id].inTried
  }

  ghost function NewIds(info: map<int, Info>): set<int>
  {
    set id | id in info && !info[id].inTried
  }

  function Find(t: Tables, net: NetAddr): Option<int>
  {
    if net in t.ids && t.ids[net] in t.info then Some(t.ids[net]) else None
  }

  // ----- the operations on single entries
  // Where the source asserts that an index is sound, these leave the tables alone otherwise; the
  // methods that carry them out prove that the assertion holds.

  ghost function Create(t: Tables, addr: Address, source: NetAddr): Tables
  {
    var id := t.idCount;
    t.(idCount := id + 1,
       info := t.info[id := Fresh(addr, source).(randomPos := |t.random|)],
       ids := t.ids[addr.service.net := id],
       random := t.random + [id])
  }

  ghost function SwapRandom(t: Tables, i: int, j: int): (u: Tables)
    ensures |u.random| == |t.random|
  {
    if i == j || !(0 <= i < |t.random| && 0 <= j < |t.random|) || t.random[i] !in t.info || t.random[j] !in t.info then t
    else
      var a, b := t.random[i], t.random[j];
      var info1 := t.info[a := t.info[a].(randomPos := j)];
      t.(info := info1[b := info1[b].(randomPos := i)],
         random := t.random[i := b][j := a])
  }

  ghost function Delete(t: Tables, id: int): Tables
  {
    if id !in t.info || t.random == [] then t
    else
      var u := SwapRandom(t, t.info[id].randomPos, |t.random| - 1);
      u.(random := u.random[..|u.random| - 1],
         ids := u.ids - {t.info[id].addr.service.net},
         info := u.info - {id},
         nNew := u.nNew - 1)
  }

  /** Drops one reference: the slot is emptied and its entry's count goes down. */
  ghost function Unlink(t: Tables, s: Slot): Tables
    requires s in t.newAt && t.newAt[s] in t.info
  {
    var id := t.newAt[s];
    WithInfo(t, id, t.info[id].(refCount := t.info[id].refCount - 1)).(newAt := t.newAt - {s})
  }

  ghost function ClearNew(t: Tables, s: Slot): Tables
  {
    if s !in t.newAt || t.newAt[s] !in t.info then t
    else
      var id, u := t.newAt[s], Unlink(t, s);
      if u.info[id].refCount == 0 then Delete(u, id) else u
  }

  /** Adds one reference: the slot, known to be empty, is given to `id`. */
  ghost function Link(t: Tables, id: int, s: Slot): Tables
    requires id in t.info
  {
    WithInfo(t, id, t.info[id].(refCount := t.info[id].refCount + 1)).(newAt := t.newAt[s := id])
  }

  /** The slots of new buckets 0 .. n-1 that refer to `id`. */
  ghost function RefsBelow(newAt: map<Slot, int>, id: int, n: nat): set<Slot>
  {
    set s | s in Refs(newAt, id) && s.0 < n
  }

  /** Takes `id` out of new buckets 0 .. n-1. */
  ghost function UnlinkBelow(t: Tables, id: int, n: nat): Tables
    requires id in t.info
  {
    var gone := RefsBelow(t.newAt, id, n);
    WithInfo(t, id, t.info[id].(refCount := t.info[id].refCount - |gone|)).(newAt := t.newAt - gone)
  }

  /** Takes the entry at tried slot `s` out of the tried table; it is in no table afterwards. */
  ghost function Untry(t: Tables, s: Slot): Tables
    requires s in t.triedAt && t.triedAt[s] in t.info
  {
    var id := t.triedAt[s];
    WithInfo(t, id, t.info[id].(inTried := false)).(triedAt := t.triedAt - {s}, nTried := t.nTried - 1)
  }

  /** Moves the entry at tried slot `s`, if any, to the new table, deleting what is in its way there. */
  ghost function Evict(e: Env, t: Tables, s: Slot): Tables
  {
    if s !in t.triedAt || t.triedAt[s] !in t.info then t
    else
      var id := t.triedAt[s];
      var i := t.info[id];
      var to := NewSlot(e, i.addr.service, i.source);
      var u := ClearNew(Untry(t, s), to);
      if id !in u.info then u
      else WithInfo(u, id, u.info[id].(refCount := 1)).(newAt := u.newAt[to := id], nNew := u.nNew + 1)
  }

  /** Takes `id` out of the new table; it is in no table and counted nowhere afterwards. */
  ghost function TakeOut(t: Tables, id: int): Tables
    requires id in t.info
  {
    UnlinkBelow(t, id, NEW_BUCKETS).(nNew := t.nNew - 1)
  }

  ghost function MakeTried(e: Env, t: Tables, id: int): Tables
    requires id in t.info
  {
    var s := TriedSlot(e, t.info[id].addr.service);
    var u := Evict(e, TakeOut(t, id), s);
    if id !in u.info then u
    else WithInfo(u, id, u.info[id].(inTried := true)).(triedAt := u.triedAt[s := id], nTried := u.nTried + 1)
  }

  // ----- the public operations

  ghost function MarkGood(t: Tables, id: int, time: int): Tables
    requires id in t.info
  {
    WithInfo(t, id, t.info[id].(lastSuccess := time, lastTry := time, attempts := 0))
  }

  ghost function Good(e: Env, t: Tables, s: Service, time: int): Tables
  {
    match Find(t, s.net)
    case None => t
    case Some(id) =>
      if t.info[id].addr.service != s then t
      else
        var u := MarkGood(t, id, time);
        if t.info[id].inTried then u else MakeTried(e, u, id)
  }

  ghost function Attempt(t: Tables, s: Service, time: int): Tables
  {
    match Find(t, s.net)
    case None => t
    case Some(id) =>
      if t.info[id].addr.service != s then t
      else WithInfo(t, id, t.info[id].(lastTry := time, attempts := t.info[id].attempts + 1))
  }

  /** Conversion to a 32-bit unsigned integer, the width of an address time. */
  function U32(x: int): nat
  {
    x % 0x1_0000_0000
  }

  function Max(a: int, b: int): int
  {
    if a >= b then a else b
  }

  ghost function Connected(t: Tables, s: Service, time: int): Tables
  {
    match Find(t, s.net)
    case None => t
    case Some(id) =>
      var i := t.info[id];
      if i.addr.service != s || time - i.addr.time <= 20 * 60 then t
      else WithInfo(t, id, i.(addr := i.addr.(time := U32(time))))
  }

  /** What a repeated announcement changes in a known entry: its time, if it is news, and its services. */
  function Refreshed(i: Info, addr: Address, penalty: int, now: int): Info
  {
    var interval := if now - addr.time < DAY then 60 * 60 else DAY;
    var time :=
      if addr.time != 0 && (i.addr.time == 0 || i.addr.time < addr.time - interval - penalty)
      then U32(Max(0, addr.time - penalty)) else i.addr.time;
    i.(addr := i.addr.(time := time, services := i.addr.services + addr.services))
  }

  /** Whether a known entry may get one more reference; `draw` is the random draw. */
  predicate WantsReference(i: Info, addr: Address, draw: nat)
  {
    && addr.time != 0 && (i.addr.time == 0 || addr.time > i.addr.time)
    && !i.inTried
    && i.refCount != NEW_BUCKETS_PER_ADDRESS
    && (i.refCount > 0 ==> (PowPositive(2, i.refCount); draw % Pow(2, i.refCount) == 0))
  }

  /** Whether the entry in a slot gives way to one that has `refCount` references so far. */
  predicate Yields(existing: Info, refCount: int, now: int)
  {
    IsTerrible(existing, now) || (existing.refCount > 1 && refCount == 0)
  }

  /** Stores a reference to `id` in the slot its source maps it to, if that slot is free or gives way. */
  ghost function Place(e: Env, t: Tables, id: int, source: NetAddr, now: int): Tables
    requires id in t.info
  {
    var i := t.info[id];
    var s := NewSlot(e, i.addr.service, source);
    if s !in t.newAt then Link(t, id, s)
    else if t.newAt[s] == id || t.newAt[s] !in t.info then t
    else if Yields(t.info[t.newAt[s]], i.refCount, now) then
      var u := ClearNew(t, s);
      if id in u.info then Link(u, id, s) else u
    else if i.refCount == 0 then Delete(t, id)
    else t
  }

  ghost function CreateNew(t: Tables, addr: Address, source: NetAddr, penalty: int): Tables
  {
    var u := Create(t, addr, source);
    var i := u.info[t.idCount];
    WithInfo(u, t.idCount, i.(addr := addr.(time := U32(Max(0, addr.time - penalty))))).(nNew := t.nNew + 1)
  }

  /** Adds an address learnt from `source`. The result is true when the address was not known. */
  ghost function Add(e: Env, t: Tables, addr: Address, source: NetAddr, penalty: int, now: int, draw: nat): (Tables, bool)
  {
    if !e.routable(addr.service.net) then (t, false)
    else match Find(t, addr.service.net)
      case Some(id) =>
        var u := WithInfo(t, id, Refreshed(t.info[id], addr, penalty, now));
        (if WantsReference(u.info[id], addr, draw) then Place(e, u, id, source, now) else u, false)
      case None =>
        (Place(e, CreateNew(t, addr, source, penalty), t.idCount, source, now), true)
  }

  // ----- choosing addresses to hand out

  function AddrLimit(known: nat): nat
  {
    var n := GETADDR_MAX_PCT * known / 100;
    if n > GETADDR_MAX then GETADDR_MAX else n
  }

  /** One round of the partial shuffle: position `n` gets an entry drawn from positions n and up. */
  ghost function ShuffleAt(t: Tables, n: nat, draw: nat -> nat): (u: Tables)
    requires n < |t.random|
    ensures |u.random| == |t.random|
  {
    SwapRandom(t, n, draw(n) % (|t.random| - n) + n)
  }

  /** The ids chosen by rounds `n` and up, after `chosen`, and the tables they leave. */
  ghost function Choose(t: Tables, n: nat, chosen: seq<int>, draw: nat -> nat, now: int): (Tables, seq<int>)
    decreases |t.random| - n
  {
    if n >= |t.random| || |chosen| >= AddrLimit(|t.random|) then (t, chosen)
    else
      var u := ShuffleAt(t, n, draw);
      var id := u.random[n];
      Choose(u, n + 1, if id in u.info && !IsTerrible(u.info[id], now) then chosen + [id] else chosen, draw, now)
  }

  ghost function GetAddr(t: Tables, draw: nat -> nat, now: int): (Tables, seq<int>)
  {
    Choose(t, 0, [], draw, now)
  }
}
