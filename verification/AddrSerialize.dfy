/**
 * The serialized form of the address manager. It holds the entries and, for every new bucket, the numbers
 * of the entries in it; everything else is rebuilt on reading, by hashing.
 */
module AddrSerialize {
  import opened AddrTables
  import opened AddrInvariant
  import opened AddrTheorems
  import opened Wrappers

  /** What the stream is made of: numbers, and entries with the fields that are written for them. */
  datatype Token =
    | Num(n: int)
    | Entry(addr: Address, source: NetAddr, lastSuccess: int, attempts: int)

  type Stream = seq<Token>

  /** The number of buckets is written XORed with 2^30; on a 32-bit integer that flips bit 30. */
  function FlipBit30(n: int): int
  {
    if (n / 0x4000_0000) % 2 == 0 then n + 0x4000_0000 else n - 0x4000_0000
  }

  lemma FlipTwice(n: int)
    ensures FlipBit30(FlipBit30(n)) == n
  {
  }

  // ----- writing

  function Listed(i: Info, tried: bool): bool
  {
    if tried then i.inTried else i.refCount != 0
  }

  /** The ids below `n` of one table's entries, in the order of the entry map. */
  function ListIds(info: map<int, Info>, n: nat, tried: bool): seq<int>
  {
    if n == 0 then []
    else
      var ids := ListIds(info, n - 1, tried);
      if n - 1 in info && Listed(info[n - 1], tried) then ids + [n - 1] else ids
  }

  function EntryToken(i: Info): Token
  {
    Entry(i.addr, i.source, i.lastSuccess, i.attempts)
  }

  function EntryTokens(info: map<int, Info>, ids: seq<int>): Stream
    requires forall k :: 0 <= k < |ids| ==> ids[k] in info
  {
    seq(|ids|, k requires 0 <= k < |ids| => EntryToken(info[ids[k]]))
  }

  /** The number under which an entry of the new table is written. */
  function Number(info: map<int, Info>, id: int): nat
  {
    if id < 0 then 0 else |ListIds(info, id, false)|
  }

  /** The numbers of the entries in positions 0 .. p-1 of a new bucket. */
  function BucketItems(info: map<int, Info>, newAt: map<Slot, int>, b: nat, p: nat): Stream
  {
    if p == 0 then []
    else
      var items := BucketItems(info, newAt, b, p - 1);
      if (b, p - 1) in newAt then items + [Num(Number(info, newAt[(b, p - 1)]))] else items
  }

  function BucketTokens(info: map<int, Info>, newAt: map<Slot, int>, b: nat): Stream
  {
    var items := BucketItems(info, newAt, b, BUCKET_SIZE);
    [Num(|items|)] + items
  }

  /** New buckets 0 .. n-1. */
  function BucketsTokens(info: map<int, Info>, newAt: map<Slot, int>, n: nat): Stream
  {
    if n == 0 then [] else BucketsTokens(info, newAt, n - 1) + BucketTokens(info, newAt, n - 1)
  }

  lemma {:induction false} ListIdsAre(info: map<int, Info>, n: nat, tried: bool)
    ensures forall id :: id in ListIds(info, n, tried) <==> id in info && 0 <= id < n && Listed(info[id], tried)
    ensures forall k :: 0 <= k < |ListIds(info, n, tried)| ==> ListIds(info, n, tried)[k] in info
    ensures Distinct(ListIds(info, n, tried))
  {
    hide Listed;
    if n > 0 {
      ListIdsAre(info, n - 1, tried);
      DistinctAppendFresh(ListIds(info, n - 1, tried), n - 1);
    }
  }

  lemma DistinctAppendFresh(ids: seq<int>, x: int)
    ensures Distinct(ids) && x !in ids ==> Distinct(ids + [x])
  {
  }

  function Header(e: Env, t: Tables): Stream
  {
    [Num(1), Num(32), Num(e.key), Num(t.nNew), Num(t.nTried), Num(FlipBit30(NEW_BUCKETS))]
  }

  ghost function Serialized(e: Env, t: Tables): Stream
    requires t.idCount >= 0
  {
    ListIdsAre(t.info, t.idCount, false);
    ListIdsAre(t.info, t.idCount, true);
    Header(e, t)
    + EntryTokens(t.info, ListIds(t.info, t.idCount, false))
    + EntryTokens(t.info, ListIds(t.info, t.idCount, true))
    + BucketsTokens(t.info, t.newAt, NEW_BUCKETS)
  }

  // ----- reading

  /** Tables under construction and what is left of the stream. */
  datatype Loading = Loading(t: Tables, rest: Stream)

  function FromToken(x: Token, position: int): Info
    requires x.Entry?
  {
    Info(x.addr, x.source, x.lastSuccess, 0, x.attempts, 0, false, position)
  }

  /** Enters the `n`-th entry of the new table; when the bucket lists cannot be used it gets a reference now. */
  ghost function EnterNew(e: Env, t: Tables, n: int, x: Token, fallback: bool): Tables
    requires x.Entry?
  {
    var i := FromToken(x, |t.random|);
    var u := WithInfo(t, n, i).(ids := t.ids[i.addr.service.net := n], random := t.random + [n]);
    var s := NewSlot(e, i.addr.service, i.source);
    if fallback && s !in t.newAt then Link(u, n, s) else u
  }

  ghost function LoadNew(e: Env, t: Tables, ts: Stream, n: int, count: int, fallback: bool): Option<Loading>
    decreases count - n
  {
    if n >= count then Some(Loading(t, ts))
    else if ts == [] || !ts[0].Entry? then None
    else LoadNew(e, EnterNew(e, t, n, ts[0], fallback), ts[1..], n + 1, count, fallback)
  }

  /** Enters an entry of the tried table in its hashed slot, or drops it if that slot is taken. */
  ghost function EnterTried(e: Env, t: Tables, x: Token): Tables
    requires x.Entry?
  {
    var i := FromToken(x, |t.random|).(inTried := true);
    var s := TriedSlot(e, i.addr.service);
    if s in t.triedAt then t.(nTried := t.nTried - 1)
    else
      WithInfo(t, t.idCount, i).(
        ids := t.ids[i.addr.service.net := t.idCount], random := t.random + [t.idCount],
        triedAt := if t.idCount == -1 then t.triedAt else t.triedAt[s := t.idCount], idCount := t.idCount + 1)
  }

  ghost function LoadTried(e: Env, t: Tables, ts: Stream, n: int, count: int): Option<Loading>
    decreases count - n
  {
    if n >= count then Some(Loading(t, ts))
    else if ts == [] || !ts[0].Entry? then None
    else LoadTried(e, EnterTried(e, t, ts[0]), ts[1..], n + 1, count)
  }

  /** Gives entry number `k` its reference from bucket `b`, if the lists are usable and there is room. */
  ghost function EnterRef(e: Env, t: Tables, b: int, k: int, usable: bool): Tables
  {
    if !(0 <= k < t.nNew) || !usable || k !in t.info || b < 0 then t
    else
      var s := SlotIn(e, t.info[k].addr.service, b);
      if s !in t.newAt && t.info[k].refCount < NEW_BUCKETS_PER_ADDRESS then Link(t, k, s) else t
  }

  ghost function LoadBucket(e: Env, t: Tables, ts: Stream, b: int, n: int, size: int, usable: bool): Option<Loading>
    decreases size - n
  {
    if n >= size then Some(Loading(t, ts))
    else if ts == [] || !ts[0].Num? then None
    else LoadBucket(e, EnterRef(e, t, b, ts[0].n, usable), ts[1..], b, n + 1, size, usable)
  }

  ghost function LoadBuckets(e: Env, t: Tables, ts: Stream, b: int, count: int, usable: bool): Option<Loading>
    decreases count - b
  {
    if b >= count then Some(Loading(t, ts))
    else if ts == [] || !ts[0].Num? then None
    else
      match LoadBucket(e, t, ts[1..], b, 0, ts[0].n, usable)
      case None => None
      case Some(l) => LoadBuckets(e, l.t, l.rest, b + 1, count, usable)
  }

  /** Deletes the entries from id `n` on that are in no table. */
  ghost function Prune(t: Tables, n: int): Tables
    decreases t.idCount - n
  {
    if n >= t.idCount then t
    else if n in t.info && !t.info[n].inTried && t.info[n].refCount == 0 then
      DeleteKeepsIdCount(t, n);
      Prune(Delete(t, n), n + 1)
    else Prune(t, n + 1)
  }

  lemma DeleteKeepsIdCount(t: Tables, id: int)
    ensures Delete(t, id).idCount == t.idCount
  {
  }

  predicate HeaderOk(ts: Stream)
  {
    |ts| >= 6 && (forall i :: 0 <= i < 6 ==> ts[i].Num?) && ts[1].n == 32
  }

  /** The number of buckets the stream announces. */
  function Buckets(ts: Stream): int
    requires HeaderOk(ts)
  {
    if ts[0].n != 0 then FlipBit30(ts[5].n) else ts[5].n
  }

  predicate Usable(ts: Stream)
    requires HeaderOk(ts)
  {
    ts[0].n == 1 && Buckets(ts) == NEW_BUCKETS
  }

  /** What reading a stream into a fresh manager yields; none if the stream is malformed. */
  ghost function Unserialized(e: Env, ts: Stream): Option<Tables>
  {
    if !HeaderOk(ts) then None
    else
      var keyed, nNew, nTried := e.(key := ts[2].n), ts[3].n, ts[4].n;
      match LoadNew(keyed, EMPTY.(nNew := nNew, nTried := nTried), ts[6..], 0, nNew, !Usable(ts))
      case None => None
      case Some(l1) =>
        match LoadTried(keyed, l1.t.(idCount := nNew), l1.rest, 0, nTried)
        case None => None
        case Some(l2) =>
          match LoadBuckets(keyed, l2.t, l2.rest, 0, Buckets(ts), Usable(ts))
          case None => None
          case Some(l3) => Some(Prune(l3.t, 0))
  }

  // ----- the tables that reading rebuilds

  /** The order in which entries are written: those of the new table, then those of the tried table. */
  ghost function Order(t: Tables): seq<int>
    requires t.idCount >= 0
  {
    ListIds(t.info, t.idCount, false) + ListIds(t.info, t.idCount, true)
  }

  ghost predicate OrderOk(order: seq<int>, info: map<int, Info>)
  {
    && Distinct(order)
    && (forall k :: 0 <= k < |order| ==> order[k] in info)
    && (forall id :: id in info ==> id in order)
  }

  ghost function Idx(order: seq<int>, id: int): (k: nat)
    ensures id in order ==> k < |order| && order[k] == id
  {
    if id in order then var k :| 0 <= k < |order| && order[k] == id; k else |order|
  }

  lemma IdxIs(order: seq<int>, k: nat)
    requires Distinct(order) && k < |order|
    ensures Idx(order, order[k]) == k
  {
    var j := Idx(order, order[k]);
    assert order[j] == order[k];
  }

  // The tables after the first `n` entries and the references in the slots of `done` have been read.

  ghost function StageInfo(t: Tables, order: seq<int>, n: nat, done: set<Slot>): map<int, Info>
    requires OrderOk(order, t.info) && n <= |order|
  {
    map k: int | 0 <= k < n ::
      t.info[order[k]].(lastTry := 0, randomPos := k, refCount := |Refs(t.newAt, order[k]) * done|)
  }

  ghost function StageIds(t: Tables, order: seq<int>, n: nat): map<NetAddr, int>
  {
    map net | net in t.ids && Idx(order, t.ids[net]) < n :: Idx(order, t.ids[net])
  }

  ghost function StageTried(t: Tables, order: seq<int>, n: nat): map<Slot, int>
  {
    map s | s in t.triedAt && Idx(order, t.triedAt[s]) < n :: Idx(order, t.triedAt[s])
  }

  ghost function StageNew(t: Tables, order: seq<int>, done: set<Slot>): map<Slot, int>
  {
    map s | s in t.newAt && s in done :: Idx(order, t.newAt[s])
  }

  ghost function Upto(n: nat): (s: seq<int>)
    ensures |s| == n && forall k :: 0 <= k < n ==> s[k] == k
  {
    seq(n, k => k)
  }

  ghost function Stage(t: Tables, order: seq<int>, n: nat, done: set<Slot>): Tables
    requires OrderOk(order, t.info) && n <= |order|
  {
    Tables(n, StageInfo(t, order, n, done), StageIds(t, order, n), Upto(n),
           StageTried(t, order, n), StageNew(t, order, done), t.nTried, t.nNew)
  }

  /** The manager that reading gives back: entry `order[k]` has become entry `k`, in the k-th random position. */
  ghost function Renumbered(t: Tables): Tables
    requires t.idCount >= 0 && OrderOk(Order(t), t.info)
  {
    Stage(t, Order(t), |Order(t)|, t.newAt.Keys)
  }

  lemma StageIdsStep(t: Tables, order: seq<int>, n: nat)
    requires OrderOk(order, t.info) && n < |order| && AddrIndex(t.info, t.ids)
    ensures StageIds(t, order, n + 1) == StageIds(t, order, n)[t.info[order[n]].addr.service.net := n]
  {
    IdxIs(order, n);
    var net := t.info[order[n]].addr.service.net;
    assert t.ids[net] == order[n];
    forall a | a in t.ids && a != net ensures Idx(order, t.ids[a]) != n {
      assert t.info[t.ids[a]].addr.service.net == a;
    }
  }

  lemma StageInfoStep(t: Tables, order: seq<int>, n: nat, i: Info)
    requires OrderOk(order, t.info) && n < |order|
    requires i == t.info[order[n]].(lastTry := 0, randomPos := n, refCount := 0)
    ensures StageInfo(t, order, n + 1, {}) == StageInfo(t, order, n, {})[n := i]
  {
    assert Refs(t.newAt, order[n]) * {} == {};
  }

  /** Reading one more entry of the new table. */
  lemma NewStep(e: Env, t: Tables, order: seq<int>, n: nat)
    requires OrderOk(order, t.info) && n < |order|
    requires AddrIndex(t.info, t.ids) && TriedIndex(e, t.info, t.triedAt) && !t.info[order[n]].inTried
    ensures EnterNew(e, Stage(t, order, n, {}).(idCount := 0), n, EntryToken(t.info[order[n]]), false)
         == Stage(t, order, n + 1, {}).(idCount := 0)
  {
    var i := t.info[order[n]];
    hide TriedSlot, AddrIndex, NewSlot, StageIds, StageTried, StageNew, StageInfo, OrderOk;
    StageIdsStep(t, order, n);
    StageInfoStep(t, order, n, FromToken(EntryToken(i), n));
    StageTriedSkip(e, t, order, n);
    assert Upto(n + 1) == Upto(n) + [n];
  }

  lemma StageTriedSkip(e: Env, t: Tables, order: seq<int>, n: nat)
    requires OrderOk(order, t.info) && n < |order|
    requires TriedIndex(e, t.info, t.triedAt) && !t.info[order[n]].inTried
    ensures StageTried(t, order, n + 1) == StageTried(t, order, n)
  {
    hide TriedSlot;
    forall s | s in t.triedAt ensures Idx(order, t.triedAt[s]) != n {
      var id: int := t.triedAt[s];
      assert id in t.info && id in order && t.info[id].inTried;
    }
  }

  lemma StageTriedStep(e: Env, t: Tables, order: seq<int>, n: nat)
    requires OrderOk(order, t.info) && n < |order|
    requires TriedIndex(e, t.info, t.triedAt) && t.info[order[n]].inTried
    ensures var s := TriedSlot(e, t.info[order[n]].addr.service);
      s !in StageTried(t, order, n) && StageTried(t, order, n + 1) == StageTried(t, order, n)[s := n]
  {
    hide TriedSlot;
    IdxIs(order, n);
    var s := TriedSlot(e, t.info[order[n]].addr.service);
    assert s in t.triedAt && t.triedAt[s] == order[n];
    forall z | z in t.triedAt && z != s ensures Idx(order, t.triedAt[z]) != n {
      var id: int := t.triedAt[z];
      assert id in t.info && z == TriedSlot(e, t.info[id].addr.service) && id in order;
    }
  }

  /** Reading one more entry of the tried table: its slot is always free. */
  lemma TriedStep(e: Env, t: Tables, order: seq<int>, n: nat, i: Info)
    requires OrderOk(order, t.info) && n < |order|
    requires AddrIndex(t.info, t.ids) && TriedIndex(e, t.info, t.triedAt)
    requires i == t.info[order[n]] && i.inTried && i.refCount == 0
    ensures EnterTried(e, Stage(t, order, n, {}), EntryToken(i)) == Stage(t, order, n + 1, {})
  {
    hide TriedSlot, AddrIndex, TriedIndex, StageIds, StageTried, StageNew, StageInfo, OrderOk;
    StageIdsStep(t, order, n);
    StageTriedStep(e, t, order, n);
    StageInfoStep(t, order, n, FromToken(EntryToken(i), n).(inTried := true));
    assert Upto(n + 1) == Upto(n) + [n];
  }

  lemma StageRefsStep(t: Tables, order: seq<int>, s: Slot, done: set<Slot>)
    requires OrderOk(order, t.info) && s in t.newAt && t.newAt[s] in t.info && s !in done
    ensures var k, n := Idx(order, t.newAt[s]), |order|;
      && StageNew(t, order, done + {s}) == StageNew(t, order, done)[s := k]
      && StageInfo(t, order, n, done + {s})
           == var info := StageInfo(t, order, n, done); info[k := info[k].(refCount := info[k].refCount + 1)]
  {
    var k, n := Idx(order, t.newAt[s]), |order|;
    forall j | 0 <= j < n
      ensures |Refs(t.newAt, order[j]) * (done + {s})| == |Refs(t.newAt, order[j]) * done| + (if j == k then 1 else 0)
    {
      var refs := Refs(t.newAt, order[j]);
      assert order[k] == t.newAt[s];
      if j == k {
        assert s in refs && refs * (done + {s}) == refs * done + {s};
      } else {
        IdxIs(order, j);
        assert s !in refs && refs * (done + {s}) == refs * done;
      }
    }
  }

  /** Reading one more reference: it goes to the slot it came from, which is free, and is within the limit. */
  lemma RefStep(e: Env, t: Tables, order: seq<int>, s: Slot, done: set<Slot>)
    requires OrderOk(order, t.info) && Consistent(e, t) && s in t.newAt && s !in done
    requires Idx(order, t.newAt[s]) < t.nNew
    ensures EnterRef(e, Stage(t, order, |order|, done), s.0, Idx(order, t.newAt[s]), true)
         == Stage(t, order, |order|, done + {s})
  {
    SlotEntry(e, t.info, t.newAt, s);
    SlotPosition(e, t, s);
    RefRoom(e, t, s, done);
    hide Inv, SlotIn, Refs;
    StageRefsStep(t, order, s, done);
    hide StageNew;
  }

  lemma SlotPosition(e: Env, t: Tables, s: Slot)
    requires Consistent(e, t) && s in t.newAt
    ensures t.newAt[s] in t.info && s == SlotIn(e, t.info[t.newAt[s]].addr.service, s.0)
  {
    hide SlotIn;
  }

  lemma RefRoom(e: Env, t: Tables, s: Slot, done: set<Slot>)
    requires Consistent(e, t) && s in t.newAt && s !in done && t.newAt[s] in t.info
    ensures |Refs(t.newAt, t.newAt[s]) * done| < NEW_BUCKETS_PER_ADDRESS
  {
    hide AddrIndex, RandomIndex, TriedIndex, NewIndex, Referenced, Counted;
    var refs := Refs(t.newAt, t.newAt[s]);
    assert s in refs;
    Subset(refs * done, refs - {s});
  }

  lemma Subset(a: set<Slot>, b: set<Slot>)
    requires a <= b
    ensures |a| <= |b|
  {
    assert b == a + (b - a);
  }

  // ----- the order of writing

  lemma ConsistentListed(e: Env, t: Tables, id: int)
    requires Consistent(e, t) && id in t.info
    ensures 0 <= id < t.idCount
    ensures t.info[id].inTried ==> t.info[id].refCount == 0
    ensures !t.info[id].inTried ==> t.info[id].refCount >= 1
  {
    hide AddrIndex, RandomIndex, TriedIndex, NewIndex, RefCounts, Counted;
    if t.info[id].inTried { TriedIsUnreferenced(e, t, id, {}, 0); }
  }

  lemma IdCountIsNat(e: Env, t: Tables)
    requires Consistent(e, t)
    ensures t.idCount >= 0
  {
  }

  lemma ListSizes(e: Env, t: Tables)
    requires Consistent(e, t) && t.idCount >= 0
    ensures |ListIds(t.info, t.idCount, false)| == t.nNew && |ListIds(t.info, t.idCount, true)| == t.nTried
    ensures forall id :: id in ListIds(t.info, t.idCount, false) <==> id in NewIds(t.info)
    ensures forall id :: id in ListIds(t.info, t.idCount, true) <==> id in TriedIds(t.info)
  {
    hide Consistent, Listed, ListIds;
    KnownIds(e, t);
    ListedIffNew(e, t);
    var news, trieds := ListIds(t.info, t.idCount, false), ListIds(t.info, t.idCount, true);
    ListIdsAre(t.info, t.idCount, false);
    ListIdsAre(t.info, t.idCount, true);
    DistinctLength(news);
    DistinctLength(trieds);
    assert (set id | id in news) == NewIds(t.info);
    assert (set id | id in trieds) == TriedIds(t.info);
  }

  lemma ListedIffNew(e: Env, t: Tables)
    requires Consistent(e, t)
    ensures forall id :: id in t.info ==> 0 <= id < t.idCount
    ensures forall id :: id in t.info ==>
      (Listed(t.info[id], false) <==> !t.info[id].inTried) && (Listed(t.info[id], true) <==> t.info[id].inTried)
  {
    hide Consistent;
    forall id | id in t.info
      ensures 0 <= id < t.idCount
      ensures Listed(t.info[id], false) <==> !t.info[id].inTried
    {
      ConsistentListed(e, t, id);
    }
  }

  lemma OrderIsOk(e: Env, t: Tables)
    requires Consistent(e, t) && t.idCount >= 0
    ensures OrderOk(Order(t), t.info) && |Order(t)| == t.nNew + t.nTried
    ensures forall k :: 0 <= k < |Order(t)| ==> (t.info[Order(t)[k]].inTried <==> k >= t.nNew)
  {
    hide Consistent;
    ListSizes(e, t);
    var news, trieds := ListIds(t.info, t.idCount, false), ListIds(t.info, t.idCount, true);
    ListIdsAre(t.info, t.idCount, false);
    ListIdsAre(t.info, t.idCount, true);
    hide ListIds;
    var order := news + trieds;
    forall k | 0 <= k < |order| ensures order[k] in t.info && (t.info[order[k]].inTried <==> k >= |news|) {
      var id: int := order[k];
      if k < |news| { assert id in news; } else { assert id in trieds; }
    }
    forall id | id in t.info ensures id in order {
      if t.info[id].inTried { assert id in trieds; } else { assert id in news; }
    }
    DistinctConcat(news, trieds);
  }

  lemma DistinctConcat(a: seq<int>, b: seq<int>)
    requires Distinct(a) && Distinct(b) && forall x :: x in a ==> x !in b
    ensures Distinct(a + b)
  {
    forall i, j | 0 <= i < j < |a + b| ensures (a + b)[i] != (a + b)[j] {
      if i < |a| <= j { assert a[i] in a && b[j - |a|] in b; }
    }
  }

  /** The number written for an entry is its place in the order. */
  lemma {:induction false} NumberIsIndex(info: map<int, Info>, id: nat, n: nat)
    requires id in info && id < n && Listed(info[id], false)
    ensures Number(info, id) < |ListIds(info, n, false)| && ListIds(info, n, false)[Number(info, id)] == id
  {
    hide Listed;
    if id < n - 1 {
      NumberIsIndex(info, id, n - 1);
    } else {
      assert ListIds(info, n, false) == ListIds(info, id, false) + [id];
    }
  }

  lemma NumberIsIdx(e: Env, t: Tables, id: int)
    requires Consistent(e, t) && id in t.info && !t.info[id].inTried && t.idCount >= 0
    ensures Number(t.info, id) == Idx(Order(t), id) < t.nNew
  {
    ConsistentListed(e, t, id);
    ListSizes(e, t);
    OrderIsOk(e, t);
    hide Consistent, OrderOk;
    NumberIsIndex(t.info, id, t.idCount);
    assert Order(t)[Number(t.info, id)] == id;
    DistinctOrder(e, t);
    IdxIs(Order(t), Number(t.info, id));
  }

  lemma DistinctOrder(e: Env, t: Tables)
    requires t.idCount >= 0 && OrderOk(Order(t), t.info)
    ensures Distinct(Order(t))
  {
  }

  // ----- reading back what was written

  /** Token `x` writes the `k`-th entry of the order, which is of the given table. */
  ghost predicate WritesEntry(t: Tables, order: seq<int>, k: nat, x: Token, tried: bool)
  {
    && k < |order| && order[k] in t.info && x == EntryToken(t.info[order[k]])
    && t.info[order[k]].inTried == tried && (tried ==> t.info[order[k]].refCount == 0)
  }

  /** `ts` starts with the entries `n` .. `count - 1` of the order, which are all of one table. */
  ghost predicate Writes(t: Tables, order: seq<int>, ts: Stream, n: nat, count: nat, tried: bool)
  {
    && n <= count <= |order| && |ts| >= count - n
    && forall j :: 0 <= j < count - n ==> WritesEntry(t, order, n + j, ts[j], tried)
  }

  lemma WritesNext(t: Tables, order: seq<int>, ts: Stream, n: nat, count: nat, tried: bool)
    requires Writes(t, order, ts, n, count, tried) && n < count
    ensures WritesEntry(t, order, n, ts[0], tried) && Writes(t, order, ts[1..], n + 1, count, tried)
  {
    assert WritesEntry(t, order, n + 0, ts[0], tried);
    hide WritesEntry;
    forall j | 0 <= j < count - (n + 1) ensures WritesEntry(t, order, n + 1 + j, ts[1..][j], tried) {
      assert WritesEntry(t, order, n + (1 + j), ts[1 + j], tried);
    }
  }

  lemma {:induction false} LoadNewRun(e: Env, t: Tables, order: seq<int>, ts: Stream, n: nat, count: nat)
    requires OrderOk(order, t.info) && n <= count <= |order| && Writes(t, order, ts, n, count, false)
    requires AddrIndex(t.info, t.ids) && TriedIndex(e, t.info, t.triedAt) && |ts| >= count - n
    ensures LoadNew(e, Stage(t, order, n, {}).(idCount := 0), ts, n, count, false)
         == Some(Loading(Stage(t, order, count, {}).(idCount := 0), ts[count - n..]))
    decreases count - n
  {
    hide AddrIndex, TriedIndex, Stage, EnterNew, OrderOk, Writes;
    if n < count {
      WritesNext(t, order, ts, n, count, false);
      NewStep(e, t, order, n);
      LoadNewRun(e, t, order, ts[1..], n + 1, count);
      assert ts[1..][count - (n + 1)..] == ts[count - n..];
    }
  }

  lemma {:induction false} LoadTriedRun(e: Env, t: Tables, order: seq<int>, ts: Stream, n: nat, first: nat)
    requires OrderOk(order, t.info) && first <= n <= |order| && Writes(t, order, ts, n, |order|, true)
    requires AddrIndex(t.info, t.ids) && TriedIndex(e, t.info, t.triedAt) && |ts| >= |order| - n
    ensures LoadTried(e, Stage(t, order, n, {}), ts, n - first, |order| - first)
         == Some(Loading(Stage(t, order, |order|, {}), ts[|order| - n..]))
    decreases |order| - n
  {
    hide AddrIndex, TriedIndex, Stage, EnterTried, OrderOk, Writes;
    if n < |order| {
      WritesNext(t, order, ts, n, |order|, true);
      TriedStep(e, t, order, n, t.info[order[n]]);
      LoadTriedRun(e, t, order, ts[1..], n + 1, first);
      assert ts[1..][|order| - (n + 1)..] == ts[|order| - n..];
    }
  }

  /** The occupied slots that come before position `p` of bucket `b`. */
  ghost function Before(newAt: map<Slot, int>, b: nat, p: nat): set<Slot>
  {
    set s | s in newAt && (s.0 < b || (s.0 == b && s.1 < p))
  }

  lemma {:induction false} BucketItemsPrefix(info: map<int, Info>, newAt: map<Slot, int>, b: nat, p: nat, q: nat)
    requires p <= q
    ensures BucketItems(info, newAt, b, p) <= BucketItems(info, newAt, b, q)
  {
    if p < q { BucketItemsPrefix(info, newAt, b, p, q - 1); }
  }

  ghost function Refilled(t: Tables, done: set<Slot>): Tables
    requires t.idCount >= 0 && OrderOk(Order(t), t.info)
  {
    Stage(t, Order(t), |Order(t)|, done)
  }

  lemma ItemsNext(info: map<int, Info>, newAt: map<Slot, int>, b: nat, p: nat)
    requires p < BUCKET_SIZE
    ensures var items, done := BucketItems(info, newAt, b, BUCKET_SIZE), |BucketItems(info, newAt, b, p)|;
      && done <= |items|
      && if (b, p) in newAt
         then done < |items| && items[done] == Num(Number(info, newAt[(b, p)]))
              && |BucketItems(info, newAt, b, p + 1)| == done + 1
         else |BucketItems(info, newAt, b, p + 1)| == done
  {
    hide Number;
    BucketItemsPrefix(info, newAt, b, p, BUCKET_SIZE);
    BucketItemsPrefix(info, newAt, b, p + 1, BUCKET_SIZE);
    assert BucketItems(info, newAt, b, p) == BucketItems(info, newAt, b, p + 1 - 1);
  }

  lemma BeforeNext(newAt: map<Slot, int>, b: nat, p: nat)
    ensures Before(newAt, b, p + 1) == Before(newAt, b, p) + (if (b, p) in newAt then {(b, p)} else {})
    ensures (b, p) !in Before(newAt, b, p)
  {
  }

  lemma LoadBucketStep(e: Env, t: Tables, items: Stream, b: nat, p: nat, done: nat, next: nat, rest: Stream)
    requires Consistent(e, t) && t.idCount >= 0 && OrderOk(Order(t), t.info) && p < BUCKET_SIZE
    requires items == BucketItems(t.info, t.newAt, b, BUCKET_SIZE) && done == |BucketItems(t.info, t.newAt, b, p)|
    requires next == |BucketItems(t.info, t.newAt, b, p + 1)|
    ensures done <= next <= |items|
    ensures LoadBucket(e, Refilled(t, Before(t.newAt, b, p)), items[done..] + rest, b, done, |items|, true)
         == LoadBucket(e, Refilled(t, Before(t.newAt, b, p + 1)), items[next..] + rest, b, next, |items|, true)
  {
    hide Consistent, OrderOk, Refilled, EnterRef, Number, Order, BucketItems, Before;
    ItemsNext(t.info, t.newAt, b, p);
    BeforeNext(t.newAt, b, p);
    if (b, p) in t.newAt {
      NumberStep(e, t, (b, p), Before(t.newAt, b, p));
      assert (items[done..] + rest)[1..] == items[next..] + rest;
    } else {
      assert Before(t.newAt, b, p) + {} == Before(t.newAt, b, p);
    }
  }

  lemma {:induction false} LoadBucketRun(e: Env, t: Tables, items: Stream, b: nat, p: nat, done: nat, rest: Stream)
    requires Consistent(e, t) && t.idCount >= 0 && OrderOk(Order(t), t.info) && p <= BUCKET_SIZE
    requires items == BucketItems(t.info, t.newAt, b, BUCKET_SIZE) && done == |BucketItems(t.info, t.newAt, b, p)|
    ensures done <= |items|
    ensures LoadBucket(e, Refilled(t, Before(t.newAt, b, p)), items[done..] + rest, b, done, |items|, true)
         == Some(Loading(Refilled(t, Before(t.newAt, b, BUCKET_SIZE)), rest))
    decreases BUCKET_SIZE - p
  {
    hide Consistent, OrderOk, Refilled, Order, BucketItems, Before;
    if p == BUCKET_SIZE {
      assert items[done..] + rest == rest;
    } else {
      hide LoadBucket;
      var next := |BucketItems(t.info, t.newAt, b, p + 1)|;
      LoadBucketStep(e, t, items, b, p, done, next, rest);
      LoadBucketRun(e, t, items, b, p + 1, next, rest);
    }
  }

  lemma NumberStep(e: Env, t: Tables, s: Slot, done: set<Slot>)
    requires Consistent(e, t) && t.idCount >= 0 && OrderOk(Order(t), t.info) && s in t.newAt && s !in done
    ensures EnterRef(e, Refilled(t, done), s.0, Number(t.info, t.newAt[s]), true) == Refilled(t, done + {s})
  {
    hide Consistent, OrderOk, Stage, EnterRef, Number, Order;
    SlotNumber(e, t, s);
    RefStep(e, t, Order(t), s, done);
  }

  lemma SlotNumber(e: Env, t: Tables, s: Slot)
    requires Consistent(e, t) && t.idCount >= 0 && s in t.newAt
    ensures Number(t.info, t.newAt[s]) == Idx(Order(t), t.newAt[s]) < t.nNew
  {
    SlotEntry(e, t.info, t.newAt, s);
    hide Inv;
    NumberIsIdx(e, t, t.newAt[s]);
  }

  lemma {:induction false} BucketsPrefix(info: map<int, Info>, newAt: map<Slot, int>, p: nat, q: nat)
    requires p <= q
    ensures BucketsTokens(info, newAt, p) <= BucketsTokens(info, newAt, q)
  {
    hide BucketTokens;
    if p < q { BucketsPrefix(info, newAt, p, q - 1); }
  }

  lemma BucketsNext(info: map<int, Info>, newAt: map<Slot, int>, b: nat)
    requires b < NEW_BUCKETS
    ensures var all, done := BucketsTokens(info, newAt, NEW_BUCKETS), |BucketsTokens(info, newAt, b)|;
      var next := |BucketsTokens(info, newAt, b + 1)|;
      done <= next <= |all| && all[done..] == BucketTokens(info, newAt, b) + all[next..]
  {
    BucketsPrefix(info, newAt, b, b + 1);
    BucketsPrefix(info, newAt, b + 1, NEW_BUCKETS);
    hide BucketTokens;
    var all, upTo, next := BucketsTokens(info, newAt, NEW_BUCKETS), BucketsTokens(info, newAt, b), BucketsTokens(info, newAt, b + 1);
    assert next == upTo + BucketTokens(info, newAt, b);
    assert all == next + all[|next|..];
  }

  lemma BeforeBucket(e: Env, t: Tables, b: nat)
    requires Consistent(e, t)
    ensures Before(t.newAt, b, BUCKET_SIZE) == Before(t.newAt, b + 1, 0)
    ensures Before(t.newAt, 0, 0) == {} && Before(t.newAt, NEW_BUCKETS, 0) == t.newAt.Keys
  {
    forall s | s in t.newAt ensures s.0 < NEW_BUCKETS && s.1 < BUCKET_SIZE { SlotBounds(e, t, s); }
  }

  lemma SlotBounds(e: Env, t: Tables, s: Slot)
    requires Consistent(e, t) && s in t.newAt
    ensures s.0 < NEW_BUCKETS && s.1 < BUCKET_SIZE
  {
  }

  lemma {:induction false} LoadBucketsRun(e: Env, t: Tables, all: Stream, b: nat, done: nat)
    requires Consistent(e, t) && t.idCount >= 0 && OrderOk(Order(t), t.info) && b <= NEW_BUCKETS
    requires all == BucketsTokens(t.info, t.newAt, NEW_BUCKETS) && done == |BucketsTokens(t.info, t.newAt, b)|
    ensures done <= |all|
    ensures LoadBuckets(e, Refilled(t, Before(t.newAt, b, 0)), all[done..], b, NEW_BUCKETS, true)
         == Some(Loading(Refilled(t, Before(t.newAt, NEW_BUCKETS, 0)), []))
    decreases NEW_BUCKETS - b
  {
    hide Consistent, OrderOk, Refilled, Order, Before, BucketItems, BucketsTokens, LoadBucket;
    if b < NEW_BUCKETS {
      var next := |BucketsTokens(t.info, t.newAt, b + 1)|;
      BucketsNext(t.info, t.newAt, b);
      LoadOneBucket(e, t, b, all[next..]);
      LoadBucketsRun(e, t, all, b + 1, next);
    } else {
      assert all[done..] == [];
    }
  }

  lemma LoadOneBucket(e: Env, t: Tables, b: nat, rest: Stream)
    requires Consistent(e, t) && t.idCount >= 0 && OrderOk(Order(t), t.info)
    ensures var items, ts := BucketItems(t.info, t.newAt, b, BUCKET_SIZE), BucketTokens(t.info, t.newAt, b) + rest;
      && ts != [] && ts[0] == Num(|items|)
      && LoadBucket(e, Refilled(t, Before(t.newAt, b, 0)), ts[1..], b, 0, |items|, true)
           == Some(Loading(Refilled(t, Before(t.newAt, b + 1, 0)), rest))
  {
    hide Consistent, OrderOk, Refilled, Order, Before, BucketItems, LoadBucket;
    var items := BucketItems(t.info, t.newAt, b, BUCKET_SIZE);
    NoItems(t.info, t.newAt, b);
    LoadBucketRun(e, t, items, b, 0, 0, rest);
    BeforeBucket(e, t, b);
    BucketTail(items, rest);
  }

  lemma NoItems(info: map<int, Info>, newAt: map<Slot, int>, b: nat)
    ensures BucketItems(info, newAt, b, 0) == []
  {
  }

  lemma BucketTail(items: Stream, rest: Stream)
    ensures ([Num(|items|)] + items + rest)[1..] == items[0..] + rest
  {
  }

  /** Pruning finds nothing to delete when every entry is tried or referenced. */
  lemma {:induction false} PruneNothing(t: Tables, n: int)
    requires forall id :: id in t.info && !t.info[id].inTried ==> t.info[id].refCount != 0
    ensures Prune(t, n) == t
    decreases t.idCount - n
  {
    if n < t.idCount { PruneNothing(t, n + 1); }
  }

  lemma RenumberedEntry(e: Env, t: Tables, k: nat)
    requires Consistent(e, t) && t.idCount >= 0 && OrderOk(Order(t), t.info) && k < |Order(t)|
    ensures StageInfo(t, Order(t), |Order(t)|, t.newAt.Keys)[k] == t.info[Order(t)[k]].(lastTry := 0, randomPos := k)
  {
    var id := Order(t)[k];
    RefCountIsCardinality(e, t, id, {}, 0);
    assert Refs(t.newAt, id) * t.newAt.Keys == Refs(t.newAt, id);
  }

  lemma RenumberedIsUnpruned(e: Env, t: Tables)
    requires Consistent(e, t) && t.idCount >= 0 && OrderOk(Order(t), t.info)
    ensures Prune(Renumbered(t), 0) == Renumbered(t)
  {
    var u := Renumbered(t);
    hide Consistent, StageIds, StageTried, StageNew;
    forall k | k in u.info && !u.info[k].inTried ensures u.info[k].refCount != 0 {
      RenumberedEntry(e, t, k);
      ConsistentListed(e, t, Order(t)[k]);
    }
    PruneNothing(u, 0);
  }

  lemma StartStage(t: Tables, order: seq<int>)
    requires OrderOk(order, t.info)
    ensures Stage(t, order, 0, {}).(idCount := 0) == EMPTY.(nNew := t.nNew, nTried := t.nTried)
  {
  }

  lemma HeaderReads(e: Env, t: Tables, rest: Stream)
    ensures var ts := Header(e, t) + rest;
      && HeaderOk(ts) && Usable(ts) && Buckets(ts) == NEW_BUCKETS && ts[6..] == rest
      && ts[2].n == e.key && ts[3].n == t.nNew && ts[4].n == t.nTried
  {
    FlipTwice(NEW_BUCKETS);
  }

  /** The `j`-th entry listed for a table is the one at its place `k` in the order. */
  lemma EntryIsWritten(e: Env, t: Tables, tried: bool, j: nat, k: nat, id: int)
    requires Consistent(e, t) && t.idCount >= 0 && j < |ListIds(t.info, t.idCount, tried)|
    requires |ListIds(t.info, t.idCount, false)| == t.nNew && k == if tried then t.nNew + j else j
    requires id == ListIds(t.info, t.idCount, tried)[j]
    ensures id in t.info && WritesEntry(t, Order(t), k, EntryToken(t.info[id]), tried)
  {
    hide Consistent, ListIds, EntryToken, Listed;
    ListIdsAre(t.info, t.idCount, tried);
    ListedIffNew(e, t);
    assert id in ListIds(t.info, t.idCount, tried);
    ConsistentListed(e, t, id);
    assert Order(t)[k] == id;
  }

  lemma NewAreWritten(e: Env, t: Tables, rest: Stream)
    requires Consistent(e, t) && t.idCount >= 0
    ensures 0 <= t.nNew <= |Order(t)| && |NewTokens(t)| == t.nNew && (NewTokens(t) + rest)[t.nNew..] == rest
    ensures Writes(t, Order(t), NewTokens(t) + rest, 0, t.nNew, false)
  {
    ListIdsAre(t.info, t.idCount, false);
    ListSizes(e, t);
    hide Consistent, WritesEntry, ListIds, EntryToken;
    forall j | 0 <= j < t.nNew ensures WritesEntry(t, Order(t), 0 + j, (NewTokens(t) + rest)[j], false) {
      EntryIsWritten(e, t, false, j, j, ListIds(t.info, t.idCount, false)[j]);
    }
  }

  lemma TriedAreWritten(e: Env, t: Tables, rest: Stream)
    requires Consistent(e, t) && t.idCount >= 0
    ensures 0 <= t.nNew <= |Order(t)| && |TriedTokens(t)| == t.nTried == |Order(t)| - t.nNew
    ensures (TriedTokens(t) + rest)[t.nTried..] == rest
    ensures Writes(t, Order(t), TriedTokens(t) + rest, t.nNew, |Order(t)|, true)
  {
    ListIdsAre(t.info, t.idCount, true);
    ListSizes(e, t);
    hide Consistent, WritesEntry, ListIds, EntryToken;
    forall j | 0 <= j < t.nTried ensures WritesEntry(t, Order(t), t.nNew + j, (TriedTokens(t) + rest)[j], true) {
      EntryIsWritten(e, t, true, j, t.nNew + j, ListIds(t.info, t.idCount, true)[j]);
    }
  }

  /**
   * Writing a manager and reading the stream into a fresh one, whatever key that one had drawn, succeeds and
   * gives back the same manager with its entries renumbered. Nothing is lost on the way.
   */
  lemma RoundTrip(e: Env, t: Tables, key: int)
    requires Consistent(e, t)
    ensures t.idCount >= 0 && OrderOk(Order(t), t.info)
    ensures Unserialized(e.(key := key), Serialized(e, t)) == Some(Renumbered(t))
    ensures Consistent(e, Renumbered(t))
  {
    IdCountIsNat(e, t);
    ListSizes(e, t);
    OrderIsOk(e, t);
    ListIdsAre(t.info, t.idCount, false);
    ListIdsAre(t.info, t.idCount, true);
    RenumberedConsistent(e, t);
    RoundTripReads(e, t, key);
  }

  lemma IndexesOf(e: Env, t: Tables)
    requires Consistent(e, t)
    ensures AddrIndex(t.info, t.ids) && TriedIndex(e, t.info, t.triedAt)
  {
  }

  ghost function NewTokens(t: Tables): Stream
    requires t.idCount >= 0
  {
    ListIdsAre(t.info, t.idCount, false);
    EntryTokens(t.info, ListIds(t.info, t.idCount, false))
  }

  ghost function TriedTokens(t: Tables): Stream
    requires t.idCount >= 0
  {
    ListIdsAre(t.info, t.idCount, true);
    EntryTokens(t.info, ListIds(t.info, t.idCount, true))
  }

  lemma ReadsNew(e: Env, t: Tables, rest: Stream)
    requires Consistent(e, t) && t.idCount >= 0
    ensures OrderOk(Order(t), t.info) && 0 <= t.nNew <= |Order(t)|
    ensures LoadNew(e, EMPTY.(nNew := t.nNew, nTried := t.nTried), NewTokens(t) + rest, 0, t.nNew, false)
         == Some(Loading(Stage(t, Order(t), t.nNew, {}).(idCount := 0), rest))
  {
    hide Consistent, OrderOk, AddrIndex, TriedIndex, LoadNew, Stage, Writes, NewTokens, Order;
    OrderIsOk(e, t);
    IndexesOf(e, t);
    NewAreWritten(e, t, rest);
    StartStage(t, Order(t));
    LoadNewRun(e, t, Order(t), NewTokens(t) + rest, 0, t.nNew);
  }

  lemma ReadsTried(e: Env, t: Tables, rest: Stream)
    requires Consistent(e, t) && t.idCount >= 0 && OrderOk(Order(t), t.info) && 0 <= t.nNew <= |Order(t)|
    ensures LoadTried(e, Stage(t, Order(t), t.nNew, {}), TriedTokens(t) + rest, 0, t.nTried)
         == Some(Loading(Refilled(t, {}), rest))
  {
    hide Consistent, OrderOk, AddrIndex, TriedIndex, LoadTried, Stage, Writes, TriedTokens, Order;
    OrderIsOk(e, t);
    IndexesOf(e, t);
    TriedAreWritten(e, t, rest);
    LoadTriedRun(e, t, Order(t), TriedTokens(t) + rest, t.nNew, t.nNew);
  }

  lemma ReadsBuckets(e: Env, t: Tables)
    requires Consistent(e, t) && t.idCount >= 0 && OrderOk(Order(t), t.info)
    ensures LoadBuckets(e, Refilled(t, {}), BucketsTokens(t.info, t.newAt, NEW_BUCKETS), 0, NEW_BUCKETS, true)
         == Some(Loading(Renumbered(t), []))
  {
    NoBuckets(t.info, t.newAt);
    hide Consistent, OrderOk, BucketsTokens, LoadBuckets, Stage, Order, Before;
    var all := BucketsTokens(t.info, t.newAt, NEW_BUCKETS);
    BeforeBucket(e, t, 0);
    LoadBucketsRun(e, t, all, 0, 0);
    assert all[0..] == all;
  }

  lemma NoBuckets(info: map<int, Info>, newAt: map<Slot, int>)
    ensures BucketsTokens(info, newAt, 0) == []
  {
  }

  lemma StreamParts(e: Env, t: Tables)
    requires t.idCount >= 0
    ensures Serialized(e, t)
         == Header(e, t) + (NewTokens(t) + (TriedTokens(t) + BucketsTokens(t.info, t.newAt, NEW_BUCKETS)))
  {
    hide Header, EntryTokens, BucketsTokens, ListIds;
  }

  lemma RoundTripReads(e: Env, t: Tables, key: int)
    requires Consistent(e, t) && t.idCount >= 0 && OrderOk(Order(t), t.info)
    ensures Unserialized(e.(key := key), Serialized(e, t)) == Some(Renumbered(t))
  {
    var buckets := BucketsTokens(t.info, t.newAt, NEW_BUCKETS);
    hide Consistent, OrderOk, Order, Stage, LoadNew, LoadTried, LoadBuckets, Prune, Header, HeaderOk, Usable, Buckets,
         NewTokens, TriedTokens, BucketsTokens, Serialized, Renumbered, Refilled;
    StreamParts(e, t);
    HeaderReads(e, t, NewTokens(t) + (TriedTokens(t) + buckets));
    ReadsNew(e, t, TriedTokens(t) + buckets);
    StageCount(t, Order(t), t.nNew);
    ReadsTried(e, t, buckets);
    ReadsBuckets(e, t);
    RenumberedIsUnpruned(e, t);
    assert e.(key := key).(key := e.key) == e;
  }

  lemma StageCount(t: Tables, order: seq<int>, n: nat)
    requires OrderOk(order, t.info) && n <= |order|
    ensures Stage(t, order, n, {}).(idCount := 0).(idCount := n) == Stage(t, order, n, {})
  {
  }

  lemma RenumberedConsistent(e: Env, t: Tables)
    requires Consistent(e, t) && t.idCount >= 0 && OrderOk(Order(t), t.info)
    ensures Consistent(e, Renumbered(t))
  {
    var u, order := Renumbered(t), Order(t);
    RenumberedAddrIndex(t, order);
    RenumberedRandomIndex(t, order);
    RenumberedTriedIndex(e, t, order);
    RenumberedNewIndex(e, t, order);
    RenumberedCounts(e, t);
    hide AddrIndex, RandomIndex, TriedIndex, NewIndex, RefCounts, Entries, Referenced, Counted;
  }

  lemma RenumberedAddrIndex(t: Tables, order: seq<int>)
    requires OrderOk(order, t.info) && AddrIndex(t.info, t.ids)
    ensures AddrIndex(StageInfo(t, order, |order|, t.newAt.Keys), StageIds(t, order, |order|))
  {
    hide Refs;
    var info, ids := StageInfo(t, order, |order|, t.newAt.Keys), StageIds(t, order, |order|);
    forall k | k in info ensures info[k].addr.service.net in ids && ids[info[k].addr.service.net] == k {
      IdxIs(order, k);
    }
    forall a | a in ids ensures ids[a] in info && info[ids[a]].addr.service.net == a {
      var id: int := t.ids[a];
      assert id in t.info && id in order;
    }
  }

  lemma RenumberedRandomIndex(t: Tables, order: seq<int>)
    requires OrderOk(order, t.info)
    ensures RandomIndex(StageInfo(t, order, |order|, t.newAt.Keys), Upto(|order|))
  {
    var info := StageInfo(t, order, |order|, t.newAt.Keys);
    forall k ensures k in info <==> 0 <= k < |order| {}
    forall k | k in info ensures info[k].randomPos == k {}
    hide StageInfo, OrderOk, Upto;
    InOrderOfIds(info, |order|);
  }

  lemma InOrderOfIds(info: map<int, Info>, n: nat)
    requires forall k :: k in info <==> 0 <= k < n
    requires forall k :: k in info ==> info[k].randomPos == k
    ensures RandomIndex(info, Upto(n))
  {
    hide Upto;
  }

  lemma RenumberedTriedSlot(e: Env, t: Tables, order: seq<int>, s: Slot)
    requires OrderOk(order, t.info) && TriedIndex(e, t.info, t.triedAt) && s in StageTried(t, order, |order|)
    ensures var k, info := StageTried(t, order, |order|)[s], StageInfo(t, order, |order|, t.newAt.Keys);
      k in info && info[k].inTried && s == TriedSlot(e, info[k].addr.service)
  {
    hide TriedSlot, Refs;
    var id: int := t.triedAt[s];
    assert id in t.info && id in order;
  }

  lemma RenumberedTriedEntry(e: Env, t: Tables, order: seq<int>, k: int)
    requires OrderOk(order, t.info) && TriedIndex(e, t.info, t.triedAt)
    requires k in StageInfo(t, order, |order|, t.newAt.Keys) && StageInfo(t, order, |order|, t.newAt.Keys)[k].inTried
    ensures var s := TriedSlot(e, StageInfo(t, order, |order|, t.newAt.Keys)[k].addr.service);
      s in StageTried(t, order, |order|) && StageTried(t, order, |order|)[s] == k
  {
    hide TriedSlot, Refs;
    IdxIs(order, k);
  }

  lemma RenumberedTriedIndex(e: Env, t: Tables, order: seq<int>)
    requires OrderOk(order, t.info) && TriedIndex(e, t.info, t.triedAt)
    ensures TriedIndex(e, StageInfo(t, order, |order|, t.newAt.Keys), StageTried(t, order, |order|))
  {
    hide TriedSlot, StageInfo, StageTried, OrderOk;
    var info, triedAt := StageInfo(t, order, |order|, t.newAt.Keys), StageTried(t, order, |order|);
    forall s | s in triedAt
      ensures triedAt[s] in info && info[triedAt[s]].inTried && s == TriedSlot(e, info[triedAt[s]].addr.service)
    {
      RenumberedTriedSlot(e, t, order, s);
    }
    forall k | k in info && info[k].inTried
      ensures TriedSlot(e, info[k].addr.service) in triedAt && triedAt[TriedSlot(e, info[k].addr.service)] == k
    {
      RenumberedTriedEntry(e, t, order, k);
    }
  }

  lemma RenumberedNewIndex(e: Env, t: Tables, order: seq<int>)
    requires OrderOk(order, t.info) && NewIndex(e, t.info, t.newAt)
    ensures NewIndex(e, StageInfo(t, order, |order|, t.newAt.Keys), StageNew(t, order, t.newAt.Keys))
  {
    hide SlotIn, Refs;
    forall s | s in t.newAt ensures t.newAt[s] in order { var id: int := t.newAt[s]; assert id in t.info; }
  }

  lemma RenumberedCounts(e: Env, t: Tables)
    requires Consistent(e, t) && t.idCount >= 0 && OrderOk(Order(t), t.info)
    ensures var u := Renumbered(t);
      RefCounts(u.info, u.newAt) && Entries(u.info, u.idCount) && Referenced(u.info, {})
      && Counted(u.info, u.nTried, u.nNew, 0)
  {
    var order := Order(t);
    var info := StageInfo(t, order, |order|, t.newAt.Keys);
    RenumberedRefs(e, t, order);
    RenumberedSplit(e, t);
    hide Consistent, StageInfo, StageNew, StageIds, StageTried, OrderOk, Order, Counted, RefCounts;
    forall k | k in info ensures 0 <= k < |order| && EntryOk(k, info[k], |order|) && (!info[k].inTried ==> info[k].refCount >= 1) {
      StageKeys(t, order, k);
      RenumberedEntry(e, t, k);
      RenumberedEntryOk(e, t, order, k);
    }
  }

  lemma StageKeys(t: Tables, order: seq<int>, k: int)
    requires OrderOk(order, t.info)
    ensures k in StageInfo(t, order, |order|, t.newAt.Keys) <==> 0 <= k < |order|
  {
  }

  lemma RenumberedEntryOk(e: Env, t: Tables, order: seq<int>, k: nat)
    requires Consistent(e, t) && OrderOk(order, t.info) && k < |order|
    ensures var i := t.info[order[k]].(lastTry := 0, randomPos := k);
      EntryOk(k, i, |order|) && (!i.inTried ==> i.refCount >= 1)
  {
    ConsistentListed(e, t, order[k]);
    EntryIsOk(e, t, order[k]);
  }

  lemma RenumberedRefs(e: Env, t: Tables, order: seq<int>)
    requires Consistent(e, t) && OrderOk(order, t.info)
    ensures RefCounts(StageInfo(t, order, |order|, t.newAt.Keys), StageNew(t, order, t.newAt.Keys))
  {
    var info, newAt := StageInfo(t, order, |order|, t.newAt.Keys), StageNew(t, order, t.newAt.Keys);
    SlotsAreListed(e, t, order);
    forall k: nat | k < |order| ensures Refs(newAt, k) == Refs(t.newAt, order[k]) * t.newAt.Keys {
      RenumberedRefsOf(t, order, k);
    }
    hide Consistent, Refs, StageNew;
  }

  lemma RenumberedRefsOf(t: Tables, order: seq<int>, k: nat)
    requires OrderOk(order, t.info) && k < |order| && forall s :: s in t.newAt ==> t.newAt[s] in order
    ensures Refs(StageNew(t, order, t.newAt.Keys), k) == Refs(t.newAt, order[k]) * t.newAt.Keys
  {
    IdxIs(order, k);
  }

  lemma SlotsAreListed(e: Env, t: Tables, order: seq<int>)
    requires Consistent(e, t) && OrderOk(order, t.info)
    ensures forall s :: s in t.newAt ==> t.newAt[s] in order
  {
    forall s | s in t.newAt ensures t.newAt[s] in order {
      SlotEntry(e, t.info, t.newAt, s);
      var id: int := t.newAt[s];
      assert id in t.info;
    }
  }

  ghost function Interval(lo: int, hi: int): (ks: set<int>)
    requires lo <= hi
    ensures forall k :: k in ks <==> lo <= k < hi
    ensures |ks| == hi - lo
    decreases hi - lo
  {
    if lo == hi then {} else Interval(lo, hi - 1) + {hi - 1}
  }

  lemma RenumberedSplit(e: Env, t: Tables)
    requires Consistent(e, t) && t.idCount >= 0 && OrderOk(Order(t), t.info)
    ensures Counted(StageInfo(t, Order(t), |Order(t)|, t.newAt.Keys), t.nTried, t.nNew, 0)
  {
    hide Consistent, ListIds, Order, Refs;
    OrderIsOk(e, t);
    ListSizes(e, t);
    var info, n := StageInfo(t, Order(t), |Order(t)|, t.newAt.Keys), |Order(t)|;
    assert TriedIds(info) == Interval(t.nNew, n);
    assert NewIds(info) == Interval(0, t.nNew);
  }

  // What a renumbered manager has in common with the original.

  /** The same entries, up to the time of the last attempt and the random order, with the same reference counts. */
  lemma RenumberedEntries(e: Env, t: Tables)
    requires Consistent(e, t) && t.idCount >= 0 && OrderOk(Order(t), t.info)
    ensures |Order(t)| == |t.info|
    ensures forall k :: k in Renumbered(t).info <==> 0 <= k < |Order(t)|
    ensures forall k :: 0 <= k < |Order(t)| ==>
      Renumbered(t).info[k] == t.info[Order(t)[k]].(lastTry := 0, randomPos := k)
  {
    OrderSize(e, t);
    forall k | 0 <= k < |Order(t)|
      ensures StageInfo(t, Order(t), |Order(t)|, t.newAt.Keys)[k] == t.info[Order(t)[k]].(lastTry := 0, randomPos := k)
    {
      RenumberedEntry(e, t, k);
    }
    hide Consistent, Order, Refs, StageIds, StageTried, StageNew;
  }

  lemma OrderSize(e: Env, t: Tables)
    requires Consistent(e, t) && t.idCount >= 0
    ensures |Order(t)| == |t.info|
  {
    hide Consistent, Order, OrderOk;
    OrderIsOk(e, t);
    KnownIds(e, t);
  }

  /** The same slots of both tables are occupied, and by the same entries. */
  lemma RenumberedSlots(e: Env, t: Tables)
    requires Consistent(e, t) && t.idCount >= 0 && OrderOk(Order(t), t.info)
    ensures Renumbered(t).newAt.Keys == t.newAt.Keys && Renumbered(t).triedAt.Keys == t.triedAt.Keys
    ensures forall s :: s in t.newAt ==>
      var k := Renumbered(t).newAt[s]; 0 <= k < |Order(t)| && Order(t)[k] == t.newAt[s]
    ensures forall s :: s in t.triedAt ==>
      var k := Renumbered(t).triedAt[s]; 0 <= k < |Order(t)| && Order(t)[k] == t.triedAt[s]
  {
    SlotsAreListed(e, t, Order(t));
    TriedAreListed(e, t, Order(t));
    hide Consistent, Order, OrderOk, StageInfo, StageIds, Refs;
    StageNewIs(t, Order(t));
    StageTriedIs(t, Order(t));
    hide StageNew, StageTried;
  }

  lemma StageNewIs(t: Tables, order: seq<int>)
    requires forall s :: s in t.newAt ==> t.newAt[s] in order
    ensures StageNew(t, order, t.newAt.Keys).Keys == t.newAt.Keys
    ensures forall s :: s in t.newAt ==>
      var k := StageNew(t, order, t.newAt.Keys)[s]; 0 <= k < |order| && order[k] == t.newAt[s]
  {
  }

  lemma StageTriedIs(t: Tables, order: seq<int>)
    requires forall s :: s in t.triedAt ==> t.triedAt[s] in order
    ensures StageTried(t, order, |order|).Keys == t.triedAt.Keys
    ensures forall s :: s in t.triedAt ==>
      var k := StageTried(t, order, |order|)[s]; 0 <= k < |order| && order[k] == t.triedAt[s]
  {
  }

  lemma TriedAreListed(e: Env, t: Tables, order: seq<int>)
    requires Consistent(e, t) && OrderOk(order, t.info)
    ensures forall s :: s in t.triedAt ==> t.triedAt[s] in order
  {
    forall s | s in t.triedAt ensures t.triedAt[s] in order {
      SlotsHoldTried(e, t, s);
      var id: int := t.triedAt[s];
      assert id in t.info;
    }
  }

  /** What passed the source's check when it was written passes it when it has been read. */
  lemma RoundTripPassesCheck(e: Env, t: Tables)
    requires Consistent(e, t) && CheckPasses(e, t)
    ensures t.idCount >= 0 && OrderOk(Order(t), t.info) && CheckPasses(e, Renumbered(t))
  {
    ConsistentPassesCheck(e, t);
    hide Consistent, CheckPasses, Renumbered, Order, OrderOk;
    RoundTrip(e, t, e.key);
    RenumberedEntries(e, t);
    ConsistentPassesCheck(e, Renumbered(t));
    RenumberedTimes(t, Renumbered(t), Order(t));
  }

  lemma RenumberedTimes(t: Tables, u: Tables, order: seq<int>)
    requires Timely(t.info) && OrderOk(order, t.info)
    requires forall k :: k in u.info <==> 0 <= k < |order|
    requires forall k :: 0 <= k < |order| ==> u.info[k] == t.info[order[k]].(lastTry := 0, randomPos := k)
    ensures Timely(u.info)
  {
  }
}
