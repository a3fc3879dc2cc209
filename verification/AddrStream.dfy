/**
 * The address manager's stream, token by token, and what is read from one whose bucket lists cannot be used.
 */
module AddrStream {
  import opened AddrTables
  import opened AddrInvariant
  import opened AddrOperations
  import opened AddrSerialize
  import opened AddrMan
  import opened Wrappers

  // ----- the order of what is written

  /**
   * A stream starts with version 1, the key's size and the key, the numbers of new and of tried entries, and 1024
   * buckets, marked by bit 30. The entries of the new table follow, and then those of the tried table.
   */
  lemma Layout(e: Env, t: Tables)
    requires Consistent(e, t)
    ensures t.idCount >= 0 && t.nNew >= 0 && t.nTried >= 0
    ensures var ts, order := Serialized(e, t), Order(t);
      && |order| == t.nNew + t.nTried && |ts| >= 6 + |order|
      && ts[..6] == [Num(1), Num(32), Num(e.key), Num(t.nNew), Num(t.nTried), Num(1024 + 0x4000_0000)]
      && forall k :: 0 <= k < |order| ==>
           order[k] in t.info && (t.info[order[k]].inTried <==> k >= t.nNew)
           && ts[6 + k] == (var i := t.info[order[k]]; Entry(i.addr, i.source, i.lastSuccess, i.attempts))
  {
    hide *;
    IdCountIsNat(e, t);
    OrderIsOk(e, t);
    ListSizes(e, t);
    PartsAre(e, t);
  }

  lemma PartsAre(e: Env, t: Tables)
    requires t.idCount >= 0 && |ListIds(t.info, t.idCount, false)| == t.nNew && |ListIds(t.info, t.idCount, true)| == t.nTried
    ensures var ts, order := Serialized(e, t), Order(t);
      && |order| == t.nNew + t.nTried && |ts| >= 6 + |order|
      && ts[..6] == [Num(1), Num(32), Num(e.key), Num(t.nNew), Num(t.nTried), Num(1024 + 0x4000_0000)]
      && forall k :: 0 <= k < |order| ==>
           order[k] in t.info
           && ts[6 + k] == (var i := t.info[order[k]]; Entry(i.addr, i.source, i.lastSuccess, i.attempts))
  {
    hide ListIds, BucketsTokens;
    ListIdsAre(t.info, t.idCount, false);
    ListIdsAre(t.info, t.idCount, true);
  }

  // ----- streams with bucket lists that cannot be used

  /** The slot that entry `n` of the stream `ts` of entries hashes to by its own source. */
  function Primary(e: Env, ts: Stream, n: nat): Slot
    requires n < |ts| && ts[n].Entry?
  {
    NewSlot(e, ts[n].addr.service, ts[n].source)
  }

  ghost predicate AreEntries(ts: Stream, count: nat)
  {
    count <= |ts| && forall n :: 0 <= n < count ==> ts[n].Entry?
  }

  /** No entry before the `n`-th hashes to its slot. */
  ghost predicate IsFirst(e: Env, ts: Stream, n: nat)
    requires AreEntries(ts, n + 1)
  {
    forall m: nat :: m < n ==> Primary(e, ts, m) != Primary(e, ts, n)
  }

  /** The first `n` entries of the stream, as far as they are the first in their slots, are referenced from there. */
  ghost predicate ReferFirst(e: Env, newAt: map<Slot, int>, ts: Stream, n: nat)
    requires AreEntries(ts, n)
  {
    && (forall m: nat :: m < n && IsFirst(e, ts, m) ==> Primary(e, ts, m) in newAt && newAt[Primary(e, ts, m)] == m)
    && (forall s :: s in newAt ==> 0 <= newAt[s] < n && s == Primary(e, ts, newAt[s]) && IsFirst(e, ts, newAt[s]))
  }

  /** They are known, with one reference if they are first and none otherwise. */
  ghost predicate KnownFirst(e: Env, info: map<int, Info>, ts: Stream, n: nat)
    requires AreEntries(ts, n)
  {
    forall m: nat :: m < n ==> m in info && IsFrom(info[m], ts[m]) && info[m].refCount == if IsFirst(e, ts, m) then 1 else 0
  }

  /** The entry of the new table has the fields that were written. */
  ghost predicate IsFrom(i: Info, x: Token)
    requires x.Entry?
  {
    i.addr == x.addr && i.source == x.source && i.lastSuccess == x.lastSuccess && i.attempts == x.attempts && !i.inTried
  }

  ghost predicate Entered(e: Env, t: Tables, ts: Stream, n: nat)
  {
    && AreEntries(ts, n) && ReferFirst(e, t.newAt, ts, n) && KnownFirst(e, t.info, ts, n)
    && Unindexed(t.info, t.random, n) && (forall k :: k in t.info ==> 0 <= k)
  }

  lemma FirstWith(e: Env, ts: Stream, n: nat) returns (m: nat)
    requires AreEntries(ts, n + 1)
    ensures m <= n && Primary(e, ts, m) == Primary(e, ts, n) && IsFirst(e, ts, m)
  {
    hide NewSlot;
    m := n;
    if k: nat :| k < n && Primary(e, ts, k) == Primary(e, ts, n) { m := FirstWith(e, ts, k); }
  }

  lemma FreeIfFirst(e: Env, newAt: map<Slot, int>, ts: Stream, n: nat)
    requires AreEntries(ts, n + 1) && ReferFirst(e, newAt, ts, n)
    ensures Primary(e, ts, n) !in newAt <==> IsFirst(e, ts, n)
  {
    hide Primary;
    if !IsFirst(e, ts, n) {
      var k: nat :| k < n && Primary(e, ts, k) == Primary(e, ts, n);
      var m := FirstWith(e, ts, k);
    }
  }

  lemma ReferNext(e: Env, newAt: map<Slot, int>, ts: Stream, n: nat)
    requires AreEntries(ts, n + 1) && ReferFirst(e, newAt, ts, n)
    ensures ReferFirst(e, if IsFirst(e, ts, n) then newAt[Primary(e, ts, n) := n] else newAt, ts, n + 1)
  {
    FreeIfFirst(e, newAt, ts, n);
    hide Primary, IsFirst, ReferFirst;
    if IsFirst(e, ts, n) { OneMoreRef(e, newAt, ts, n); } else { SameRefs(e, newAt, ts, n); }
  }

  lemma OneMoreRef(e: Env, newAt: map<Slot, int>, ts: Stream, n: nat)
    requires AreEntries(ts, n + 1) && ReferFirst(e, newAt, ts, n) && Primary(e, ts, n) !in newAt && IsFirst(e, ts, n)
    ensures ReferFirst(e, newAt[Primary(e, ts, n) := n], ts, n + 1)
  {
    hide Primary;
    assert forall m: nat :: m < n && IsFirst(e, ts, m) ==> Primary(e, ts, m) != Primary(e, ts, n);
    hide IsFirst;
  }

  lemma SameRefs(e: Env, newAt: map<Slot, int>, ts: Stream, n: nat)
    requires AreEntries(ts, n + 1) && ReferFirst(e, newAt, ts, n) && !IsFirst(e, ts, n)
    ensures ReferFirst(e, newAt, ts, n + 1)
  {
    hide Primary, IsFirst;
  }

  lemma KnownNext(e: Env, info: map<int, Info>, ts: Stream, n: nat, i: Info)
    requires AreEntries(ts, n + 1) && KnownFirst(e, info, ts, n)
    requires IsFrom(i, ts[n]) && i.refCount == if IsFirst(e, ts, n) then 1 else 0
    ensures KnownFirst(e, info[n := i], ts, n + 1)
  {
    hide Primary, IsFrom;
  }

  lemma EnterNewIs(e: Env, t: Tables, ts: Stream, n: nat)
    requires AreEntries(ts, n + 1)
    ensures var i, free, u := FromToken(ts[n], |t.random|), Primary(e, ts, n) !in t.newAt, EnterNew(e, t, n, ts[n], true);
      && u.info == t.info[n := if free then i.(refCount := 1) else i] && u.random == t.random + [n]
      && u.newAt == if free then t.newAt[Primary(e, ts, n) := n] else t.newAt
  {
    hide NewSlot;
    var i := FromToken(ts[n], |t.random|);
    assert t.info[n := i][n := i.(refCount := 1)] == t.info[n := i.(refCount := 1)];
  }

  lemma EnterNext(e: Env, t: Tables, ts: Stream, n: nat)
    requires Entered(e, t, ts, n) && AreEntries(ts, n + 1)
    ensures Entered(e, EnterNew(e, t, n, ts[n], true), ts, n + 1)
  {
    hide EnterNew, Primary, ReferFirst, KnownFirst, IsFirst, Unindexed;
    var i := FromToken(ts[n], |t.random|);
    var j := if IsFirst(e, ts, n) then i.(refCount := 1) else i;
    EnterNewIs(e, t, ts, n);
    FreeIfFirst(e, t.newAt, ts, n);
    ReferNext(e, t.newAt, ts, n);
    KnownNext(e, t.info, ts, n, j);
    AppendKeepsUnindexed(t.info, t.random, n, j);
  }

  /** Entries of the new table are entered one by one. */
  lemma {:induction false} LoadNewEnters(e: Env, t: Tables, ts: Stream, n: nat, count: nat)
    requires n <= count && n <= |ts| && Entered(e, t, ts, n) && LoadNew(e, t, ts[n..], n, count, true).Some?
    ensures Entered(e, LoadNew(e, t, ts[n..], n, count, true).value.t, ts, count)
    decreases count - n
  {
    hide EnterNew, Entered, LoadNew;
    NewNext(e, t, ts[n..], n, count, true);
    if n < count {
      EntriesNext(e, t, ts, n);
      EnterNext(e, t, ts, n);
      assert ts[n..][1..] == ts[n + 1..];
      LoadNewEnters(e, EnterNew(e, t, n, ts[n], true), ts, n + 1, count);
    }
  }

  lemma EntriesNext(e: Env, t: Tables, ts: Stream, n: nat)
    requires Entered(e, t, ts, n) && n < |ts| && ts[n].Entry?
    ensures AreEntries(ts, n + 1)
  {
  }

  /** Later steps of reading change neither references nor the entries below `n`, and add only tried ones. */
  ghost predicate Keeps(t: Tables, u: Tables, n: nat)
  {
    && u.newAt == t.newAt && u.idCount >= t.idCount
    && (forall k :: k in t.info && k < n ==> k in u.info && SameEntry(t.info[k], u.info[k]))
    && (forall k :: k in u.info ==> (k < n && k in t.info) || (k >= n && u.info[k].inTried))
    && Unindexed(u.info, u.random, u.idCount)
  }

  lemma EnterTriedKeeps(e: Env, t: Tables, u: Tables, x: Token, n: nat)
    requires x.Entry? && Keeps(t, u, n) && u.idCount >= n
    ensures Keeps(t, EnterTried(e, u, x), n) && EnterTried(e, u, x).idCount >= n
  {
    hide TriedSlot, Unindexed;
    AppendKeepsUnindexed(u.info, u.random, u.idCount, FromToken(x, |u.random|).(inTried := true));
  }

  lemma {:induction false} LoadTriedKeeps(e: Env, t: Tables, u: Tables, ts: Stream, m: int, count: int, n: nat)
    requires Keeps(t, u, n) && u.idCount >= n && LoadTried(e, u, ts, m, count).Some?
    ensures Keeps(t, LoadTried(e, u, ts, m, count).value.t, n)
    decreases count - m
  {
    hide EnterTried, LoadTried, Keeps;
    TriedNext(e, u, ts, m, count);
    if m < count {
      EnterTriedKeeps(e, t, u, ts[0], n);
      LoadTriedKeeps(e, t, EnterTried(e, u, ts[0]), ts[1..], m + 1, count, n);
    }
  }

  lemma {:induction false} BucketIsSkipped(e: Env, t: Tables, ts: Stream, b: int, n: int, size: int)
    ensures var l := LoadBucket(e, t, ts, b, n, size, false); l.Some? ==> l.value.t == t
    decreases size - n
  {
    hide LoadBucket;
    BucketNext(e, t, ts, b, n, size, false);
    if n < size && ts != [] { BucketIsSkipped(e, t, ts[1..], b, n + 1, size); }
  }

  lemma {:induction false} BucketsAreSkipped(e: Env, t: Tables, ts: Stream, b: int, count: int)
    ensures var l := LoadBuckets(e, t, ts, b, count, false); l.Some? ==> l.value.t == t
    decreases count - b
  {
    hide LoadBuckets, LoadBucket;
    if b < count {
      NextBucket(e, t, ts, b, count, false);
      if ts != [] && ts[0].Num? {
        BucketIsSkipped(e, t, ts[1..], b, 0, ts[0].n);
        var l := LoadBucket(e, t, ts[1..], b, 0, ts[0].n, false);
        if l.Some? { BucketsAreSkipped(e, t, l.value.rest, b + 1, count); }
      }
    } else {
      NoMoreBuckets(e, t, ts, b, count, false);
    }
  }

  /** Pruning deletes the entries from `n` on that are in no table, and no others. */
  lemma {:induction false} PruneDeletes(t: Tables, n: int)
    requires RandomIndex(t.info, t.random)
    ensures Prune(t, n).newAt == t.newAt && Prune(t, n).triedAt == t.triedAt
    ensures RandomIndex(Prune(t, n).info, Prune(t, n).random)
    ensures forall k :: k in Prune(t, n).info <==>
      k in t.info && !(n <= k < t.idCount && !t.info[k].inTried && t.info[k].refCount == 0)
    ensures forall k :: k in Prune(t, n).info ==> SameEntry(t.info[k], Prune(t, n).info[k])
    decreases t.idCount - n
  {
    hide Delete, RandomIndex, OnlyTouches;
    if n < t.idCount {
      if n in t.info && !t.info[n].inTried && t.info[n].refCount == 0 {
        DeleteKeepsIdCount(t, n);
        DeleteKeepsRandomIndex(t, n);
        DeleteTouches(t, n);
        DeletesOnly(t, Delete(t, n), n);
        PruneDeletes(Delete(t, n), n + 1);
      } else {
        PruneDeletes(t, n + 1);
      }
    }
  }

  lemma DeletesOnly(t: Tables, u: Tables, id: int)
    requires OnlyTouches(t, u, id) && id !in u.info
    ensures forall k :: k in u.info <==> k in t.info && k != id
    ensures forall k :: k in u.info ==> SameEntry(t.info[k], u.info[k])
    ensures u.triedAt == t.triedAt
  {
  }

  /** Exactly streams of version 1 with 1024 buckets, marked by bit 30, have bucket lists that are used. */
  lemma UsableIff(ts: Stream)
    requires HeaderOk(ts)
    ensures Usable(ts) <==> ts[0].n == 1 && ts[5].n == 1024 + 0x4000_0000
  {
    FlipTwice(ts[5].n);
  }

  /**
   * Reading any other stream: of the entries of the new table exactly those stay that are the first to hash to their
   * slot by their own source, each with one reference, in that slot.
   */
  lemma Fallback(e: Env, ts: Stream)
    requires HeaderOk(ts) && !(ts[0].n == 1 && ts[5].n == 1024 + 0x4000_0000)
    requires ts[3].n >= 0 && Unserialized(e, ts).Some?
    ensures var k, body, n, u := e.(key := ts[2].n), ts[6..], ts[3].n, Unserialized(e, ts).value;
      && AreEntries(body, n) && ReferFirst(k, u.newAt, body, n)
      && forall m: nat :: m < n ==>
           (m in u.info <==> IsFirst(k, body, m)) && (m in u.info ==> IsFrom(u.info[m], body[m]) && u.info[m].refCount == 1)
  {
    hide *;
    HeaderIs(ts);
    UsableIff(ts);
    var k, body, n := e.(key := ts[2].n), ts[6..], ts[3].n;
    ReadsInStages(e, ts);
    var t0 := EMPTY.(nNew := n, nTried := ts[4].n);
    var l1 := LoadNew(k, t0, body, 0, n, true).value;
    NothingEntered(k, t0, body);
    assert body[0..] == body;
    LoadNewEnters(k, t0, body, 0, n);
    var t1 := l1.t.(idCount := n);
    KeepsItself(k, l1.t, body, n);
    var l2 := LoadTried(k, t1, l1.rest, 0, ts[4].n).value;
    LoadTriedKeeps(k, t1, t1, l1.rest, 0, ts[4].n, n);
    BucketsAreSkipped(k, l2.t, l2.rest, 0, Buckets(ts));
    KeptIndex(t1, l2.t, n);
    PruneDeletes(l2.t, 0);
    AfterPruning(k, l1.t, t1, l2.t, Prune(l2.t, 0), body, n);
  }

  lemma HeaderIs(ts: Stream)
    requires HeaderOk(ts)
    ensures |ts| >= 6 && ts[0].Num? && ts[2].Num? && ts[3].Num? && ts[4].Num? && ts[5].Num?
    ensures EMPTY.info == map[] && EMPTY.random == [] && EMPTY.newAt == map[] && EMPTY.triedAt == map[]
  {
  }

  lemma ReadsInStages(e: Env, ts: Stream)
    requires HeaderOk(ts) && !Usable(ts) && Unserialized(e, ts).Some?
    ensures var k, n := e.(key := ts[2].n), ts[3].n;
      var l1 := LoadNew(k, EMPTY.(nNew := n, nTried := ts[4].n), ts[6..], 0, n, true);
      && l1.Some?
      && var l2 := LoadTried(k, l1.value.t.(idCount := n), l1.value.rest, 0, ts[4].n);
      && l2.Some?
      && var l3 := LoadBuckets(k, l2.value.t, l2.value.rest, 0, Buckets(ts), false);
      && l3.Some? && Unserialized(e, ts).value == Prune(l3.value.t, 0)
  {
    hide LoadNew, LoadTried, LoadBuckets, Prune, Buckets;
  }

  lemma NothingEntered(e: Env, t: Tables, ts: Stream)
    requires t.info == map[] && t.random == [] && t.newAt == map[]
    ensures Entered(e, t, ts, 0)
  {
  }

  lemma KeepsItself(e: Env, t: Tables, ts: Stream, n: nat)
    requires Entered(e, t, ts, n)
    ensures Keeps(t.(idCount := n), t.(idCount := n), n)
  {
    hide ReferFirst, KnownFirst;
  }

  lemma KeptIndex(t: Tables, u: Tables, n: nat)
    requires Keeps(t, u, n)
    ensures RandomIndex(u.info, u.random) && forall k :: k in u.info ==> k < u.idCount
  {
    hide RandomIndex;
  }

  lemma AfterPruning(e: Env, t0: Tables, t: Tables, u: Tables, w: Tables, ts: Stream, n: nat)
    requires Entered(e, t0, ts, n) && t == t0.(idCount := n) && Keeps(t, u, n)
    requires forall k :: k in u.info ==> k < u.idCount
    requires w.newAt == u.newAt
    requires forall k :: k in w.info <==> k in u.info && !(0 <= k < u.idCount && !u.info[k].inTried && u.info[k].refCount == 0)
    requires forall k :: k in w.info ==> SameEntry(u.info[k], w.info[k])
    ensures AreEntries(ts, n) && ReferFirst(e, w.newAt, ts, n)
    ensures forall m: nat :: m < n ==>
      (m in w.info <==> IsFirst(e, ts, m)) && (m in w.info ==> IsFrom(w.info[m], ts[m]) && w.info[m].refCount == 1)
  {
    hide ReferFirst, IsFirst, Unindexed;
    forall m: nat | m < n
      ensures m in w.info <==> IsFirst(e, ts, m)
      ensures m in w.info ==> IsFrom(w.info[m], ts[m]) && w.info[m].refCount == 1
    {
      assert m in t.info && m in u.info && SameEntry(t.info[m], u.info[m]);
    }
  }

  // ----- whatever is read is in order

  /** Entries have at most eight references, as many as slots refer to them, and everything is where it hashes to. */
  ghost predicate InOrder(e: Env, t: Tables, limit: int)
  {
    && TriedIndex(e, t.info, t.triedAt) && NewIndex(e, t.info, t.newAt) && RefCounts(t.info, t.newAt)
    && Unindexed(t.info, t.random, limit) && forall id :: id in t.info ==> 0 <= id && t.info[id].refCount <= 8
  }

  ghost predicate NoneTriedBelow(info: map<int, Info>, n: int)
  {
    forall id :: id in info && id < n ==> !info[id].inTried
  }

  lemma LinkInOrder(e: Env, t: Tables, k: int, s: Slot, limit: int)
    requires InOrder(e, t, limit) && s !in t.newAt && k in t.info && !t.info[k].inTried && t.info[k].refCount < 8
    requires s.0 < NEW_BUCKETS && s == SlotIn(e, t.info[k].addr.service, s.0)
    ensures InOrder(e, Link(t, k, s), limit)
  {
    var i := t.info[k].(refCount := t.info[k].refCount + 1);
    LinkKeepsTables(e, t.info, t.newAt, s, k);
    UpdateKeepsTables(e, t.info, t.triedAt, t.newAt[s := k], k, i);
    LinkKeepsCounts(t.info, t.newAt, s, k, i);
    UpdateKeepsUnindexed(t.info, t.random, limit, k, i);
    hide TriedIndex, NewIndex, RefCounts, Unindexed;
  }

  lemma EnterNewInOrder(e: Env, t: Tables, n: nat, x: Token, fallback: bool)
    requires x.Entry? && InOrder(e, t, n) && NoneTriedBelow(t.info, n)
    ensures InOrder(e, EnterNew(e, t, n, x, fallback), n + 1) && NoneTriedBelow(EnterNew(e, t, n, x, fallback).info, n + 1)
  {
    var i := FromToken(x, |t.random|);
    NewToLimit(t.info, t.random, n);
    InsertKeepsTables(e, t.info, t.triedAt, t.newAt, n, i);
    AppendKeepsUnindexed(t.info, t.random, n, i);
    hide TriedIndex, NewIndex, RefCounts, Unindexed, SlotIn, NewBucket;
    var u := WithInfo(t, n, i).(ids := t.ids[i.addr.service.net := n], random := t.random + [n]);
    assert InOrder(e, u, n + 1);
    var s := NewSlot(e, i.addr.service, i.source);
    if s !in t.newAt { LinkInOrder(e, u, n, s, n + 1); }
  }

  lemma NewToLimit(info: map<int, Info>, random: seq<int>, n: int)
    requires Unindexed(info, random, n)
    ensures n !in info
  {
  }

  lemma {:induction false} LoadNewInOrder(e: Env, t: Tables, ts: Stream, n: nat, count: nat, fallback: bool)
    requires n <= count && InOrder(e, t, n) && NoneTriedBelow(t.info, n) && LoadNew(e, t, ts, n, count, fallback).Some?
    ensures var u := LoadNew(e, t, ts, n, count, fallback).value.t; InOrder(e, u, count) && NoneTriedBelow(u.info, count)
    decreases count - n
  {
    hide EnterNew, InOrder, LoadNew, NoneTriedBelow;
    NewNext(e, t, ts, n, count, fallback);
    if n < count {
      EnterNewInOrder(e, t, n, ts[0], fallback);
      LoadNewInOrder(e, EnterNew(e, t, n, ts[0], fallback), ts[1..], n + 1, count, fallback);
    }
  }

  lemma EnterTriedInOrder(e: Env, t: Tables, x: Token, n: nat)
    requires x.Entry? && InOrder(e, t, t.idCount) && NoneTriedBelow(t.info, n) && t.idCount >= n
    ensures var u := EnterTried(e, t, x); InOrder(e, u, u.idCount) && NoneTriedBelow(u.info, n) && u.idCount >= n
  {
    var i := FromToken(x, |t.random|).(inTried := true);
    EnterTriedIs(e, t, x);
    if TriedSlot(e, i.addr.service) !in t.triedAt {
      NewToLimit(t.info, t.random, t.idCount);
      InsertTriedKeepsTables(e, t.info, t.triedAt, t.newAt, t.idCount, i);
      AppendKeepsUnindexed(t.info, t.random, t.idCount, i);
    }
    hide TriedIndex, NewIndex, RefCounts, Unindexed, TriedSlot, EnterTried;
  }

  lemma EnterTriedIs(e: Env, t: Tables, x: Token)
    requires x.Entry? && t.idCount >= 0
    ensures var i, u := FromToken(x, |t.random|).(inTried := true), EnterTried(e, t, x);
      var s := TriedSlot(e, i.addr.service);
      && (s in t.triedAt ==> u == t.(nTried := u.nTried))
      && (s !in t.triedAt ==>
            && u.info == t.info[t.idCount := i] && u.random == t.random + [t.idCount] && u.newAt == t.newAt
            && u.triedAt == t.triedAt[s := t.idCount] && u.idCount == t.idCount + 1)
  {
    hide TriedSlot;
  }

  lemma InsertTriedKeepsTables(e: Env, info: map<int, Info>, triedAt: map<Slot, int>, newAt: map<Slot, int>, id: int, i: Info)
    requires TriedIndex(e, info, triedAt) && NewIndex(e, info, newAt) && RefCounts(info, newAt)
    requires id !in info && i.inTried && i.refCount == 0 && TriedSlot(e, i.addr.service) !in triedAt
    ensures TriedIndex(e, info[id := i], triedAt[TriedSlot(e, i.addr.service) := id])
    ensures NewIndex(e, info[id := i], newAt) && RefCounts(info[id := i], newAt)
  {
    hide TriedSlot, SlotIn;
    assert Refs(newAt, id) == {};
  }

  lemma {:induction false} LoadTriedInOrder(e: Env, t: Tables, ts: Stream, m: int, count: int, n: nat)
    requires InOrder(e, t, t.idCount) && NoneTriedBelow(t.info, n) && t.idCount >= n && LoadTried(e, t, ts, m, count).Some?
    ensures var u := LoadTried(e, t, ts, m, count).value.t;
      InOrder(e, u, u.idCount) && NoneTriedBelow(u.info, n) && u.idCount >= n && (t.nNew == n ==> u.nNew == n)
    decreases count - m
  {
    hide EnterTried, LoadTried, InOrder, NoneTriedBelow;
    TriedNext(e, t, ts, m, count);
    if m < count {
      EnterTriedInOrder(e, t, ts[0], n);
      EnterTriedCounts(e, t, ts[0]);
      LoadTriedInOrder(e, EnterTried(e, t, ts[0]), ts[1..], m + 1, count, n);
    }
  }

  lemma EnterTriedCounts(e: Env, t: Tables, x: Token)
    requires x.Entry?
    ensures EnterTried(e, t, x).nNew == t.nNew
  {
  }

  lemma EnterRefInOrder(e: Env, t: Tables, b: int, k: int, usable: bool)
    requires InOrder(e, t, t.idCount) && NoneTriedBelow(t.info, t.nNew) && b < NEW_BUCKETS
    ensures var u := EnterRef(e, t, b, k, usable);
      InOrder(e, u, u.idCount) && NoneTriedBelow(u.info, u.nNew) && u.nNew == t.nNew && u.idCount == t.idCount
  {
    hide TriedIndex, NewIndex, RefCounts, Unindexed, BucketPosition;
    if 0 <= k < t.nNew && k in t.info && b >= 0 {
      var s := SlotIn(e, t.info[k].addr.service, b);
      if s !in t.newAt && t.info[k].refCount < 8 { LinkInOrder(e, t, k, s, t.idCount); }
    }
  }

  lemma {:induction false} LoadBucketInOrder(e: Env, t: Tables, ts: Stream, b: int, n: int, size: int, usable: bool)
    requires InOrder(e, t, t.idCount) && NoneTriedBelow(t.info, t.nNew) && b < NEW_BUCKETS
    requires LoadBucket(e, t, ts, b, n, size, usable).Some?
    ensures var u := LoadBucket(e, t, ts, b, n, size, usable).value.t;
      InOrder(e, u, u.idCount) && NoneTriedBelow(u.info, u.nNew) && u.nNew == t.nNew && u.idCount == t.idCount
    decreases size - n
  {
    hide EnterRef, LoadBucket, InOrder, NoneTriedBelow;
    BucketNext(e, t, ts, b, n, size, usable);
    if n < size {
      EnterRefInOrder(e, t, b, ts[0].n, usable);
      LoadBucketInOrder(e, EnterRef(e, t, b, ts[0].n, usable), ts[1..], b, n + 1, size, usable);
    }
  }

  lemma {:induction false} LoadBucketsInOrder(e: Env, t: Tables, ts: Stream, b: int, count: int)
    requires InOrder(e, t, t.idCount) && NoneTriedBelow(t.info, t.nNew) && count <= NEW_BUCKETS
    requires LoadBuckets(e, t, ts, b, count, true).Some?
    ensures var u := LoadBuckets(e, t, ts, b, count, true).value.t; InOrder(e, u, u.idCount)
    decreases count - b
  {
    hide LoadBuckets, LoadBucket, InOrder, NoneTriedBelow;
    if b < count {
      NextBucket(e, t, ts, b, count, true);
      LoadBucketInOrder(e, t, ts[1..], b, 0, ts[0].n, true);
      var l := LoadBucket(e, t, ts[1..], b, 0, ts[0].n, true).value;
      LoadBucketsInOrder(e, l.t, l.rest, b + 1, count);
    } else {
      NoMoreBuckets(e, t, ts, b, count, true);
    }
  }

  lemma PruneInOrder(e: Env, t: Tables)
    requires InOrder(e, t, t.idCount)
    ensures var u := Prune(t, 0);
      && TriedIndex(e, u.info, u.triedAt) && NewIndex(e, u.info, u.newAt) && RefCounts(u.info, u.newAt)
      && RandomIndex(u.info, u.random)
      && forall id :: id in u.info ==> 0 <= id && u.info[id].refCount <= 8 && (u.info[id].inTried || u.info[id].refCount > 0)
  {
    hide Prune, TriedIndex, NewIndex, RefCounts, RandomIndex;
    IndexedIs(t.info, t.random, t.idCount);
    PruneDeletes(t, 0);
    CountsArePositive(t.info, t.newAt);
    var u := Prune(t, 0);
    forall s | s in t.newAt ensures t.newAt[s] in u.info {
      SlotEntry(e, t.info, t.newAt, s);
      var k := t.newAt[s];
      assert k in t.info && t.info[k].refCount >= 1;
    }
    PrunedTried(e, t, Prune(t, 0));
    PrunedNew(e, t, Prune(t, 0));
  }

  lemma IndexedIs(info: map<int, Info>, random: seq<int>, limit: int)
    requires Unindexed(info, random, limit)
    ensures RandomIndex(info, random) && forall id :: id in info ==> id < limit
  {
  }

  lemma CountsArePositive(info: map<int, Info>, newAt: map<Slot, int>)
    requires RefCounts(info, newAt)
    ensures forall id :: id in info ==> info[id].refCount >= 0
  {
  }

  lemma PrunedTried(e: Env, t: Tables, u: Tables)
    requires TriedIndex(e, t.info, t.triedAt) && u.triedAt == t.triedAt
    requires forall k :: k in t.info && t.info[k].inTried ==> k in u.info
    requires forall k :: k in u.info ==> k in t.info && SameEntry(t.info[k], u.info[k])
    ensures TriedIndex(e, u.info, u.triedAt)
  {
    hide TriedSlot;
    forall s | s in u.triedAt
      ensures u.triedAt[s] in u.info && u.info[u.triedAt[s]].inTried
      ensures s == TriedSlot(e, u.info[u.triedAt[s]].addr.service)
    {
      var k := t.triedAt[s];
      assert k in t.info && k in u.info && SameEntry(t.info[k], u.info[k]);
    }
    forall k | k in u.info && u.info[k].inTried
      ensures TriedSlot(e, u.info[k].addr.service) in u.triedAt && u.triedAt[TriedSlot(e, u.info[k].addr.service)] == k
    {
      assert SameEntry(t.info[k], u.info[k]);
    }
  }

  lemma PrunedNew(e: Env, t: Tables, u: Tables)
    requires NewIndex(e, t.info, t.newAt) && RefCounts(t.info, t.newAt) && u.newAt == t.newAt
    requires forall s :: s in t.newAt ==> t.newAt[s] in u.info
    requires forall k :: k in u.info ==> k in t.info && SameEntry(t.info[k], u.info[k])
    ensures NewIndex(e, u.info, u.newAt) && RefCounts(u.info, u.newAt)
  {
    hide SlotIn, Refs;
    forall s: Slot | s in u.newAt
      ensures u.newAt[s] in u.info && !u.info[u.newAt[s]].inTried && s.0 < NEW_BUCKETS
      ensures s == SlotIn(e, u.info[u.newAt[s]].addr.service, s.0)
    {
      var k := t.newAt[s];
      assert k in t.info && k in u.info && SameEntry(t.info[k], u.info[k]);
    }
    forall k | k in u.info ensures u.info[k].refCount == |Refs(u.newAt, k)| {
      assert SameEntry(t.info[k], u.info[k]);
    }
  }

  /**
   * Whatever stream is read: afterwards every entry of both tables is in the slot it hashes to, no slot refers to an
   * unknown entry, reference counts are exact and at most eight, no entry is in neither table, and the random order is
   * one of the entries known.
   */
  lemma ReadIsInOrder(e: Env, ts: Stream)
    requires HeaderOk(ts) && ts[3].n >= 0 && Unserialized(e, ts).Some?
    ensures var k, u := e.(key := ts[2].n), Unserialized(e, ts).value;
      && TriedIndex(k, u.info, u.triedAt) && NewIndex(k, u.info, u.newAt) && RefCounts(u.info, u.newAt)
      && RandomIndex(u.info, u.random)
      && forall id :: id in u.info ==> 0 <= id && u.info[id].refCount <= 8 && (u.info[id].inTried || u.info[id].refCount > 0)
  {
    hide *;
    HeaderIs(ts);
    StagesOf(e, ts);
    var k, n := e.(key := ts[2].n), ts[3].n;
    var t0 := EMPTY.(nNew := n, nTried := ts[4].n);
    EmptyInOrder(k, t0);
    LoadNewInOrder(k, t0, ts[6..], 0, n, !Usable(ts));
    var l1 := LoadNew(k, t0, ts[6..], 0, n, !Usable(ts)).value;
    var t1 := l1.t.(idCount := n);
    LimitedInOrder(k, l1.t, n);
    LoadTriedInOrder(k, t1, l1.rest, 0, ts[4].n, n);
    var l2 := LoadTried(k, t1, l1.rest, 0, ts[4].n).value;
    LoadNewCounts(k, t0, ts[6..], 0, n, !Usable(ts));
    if Usable(ts) {
      UsableIff(ts);
      BucketsIf(ts);
      LoadBucketsInOrder(k, l2.t, l2.rest, 0, Buckets(ts));
    } else {
      BucketsAreSkipped(k, l2.t, l2.rest, 0, Buckets(ts));
    }
    PruneInOrder(k, LoadBuckets(k, l2.t, l2.rest, 0, Buckets(ts), Usable(ts)).value.t);
  }

  lemma StagesOf(e: Env, ts: Stream)
    requires HeaderOk(ts) && Unserialized(e, ts).Some?
    ensures var k, n := e.(key := ts[2].n), ts[3].n;
      var l1 := LoadNew(k, EMPTY.(nNew := n, nTried := ts[4].n), ts[6..], 0, n, !Usable(ts));
      && l1.Some?
      && var l2 := LoadTried(k, l1.value.t.(idCount := n), l1.value.rest, 0, ts[4].n);
      && l2.Some?
      && var l3 := LoadBuckets(k, l2.value.t, l2.value.rest, 0, Buckets(ts), Usable(ts));
      && l3.Some? && Unserialized(e, ts).value == Prune(l3.value.t, 0)
  {
    hide LoadNew, LoadTried, LoadBuckets, Prune, Buckets, Usable;
  }

  lemma EmptyInOrder(e: Env, t: Tables)
    requires t.info == map[] && t.random == [] && t.newAt == map[] && t.triedAt == map[]
    ensures InOrder(e, t, 0) && NoneTriedBelow(t.info, 0)
  {
  }

  lemma LimitedInOrder(e: Env, t: Tables, n: int)
    requires InOrder(e, t, n)
    ensures InOrder(e, t.(idCount := n), n)
  {
    hide TriedIndex, NewIndex, RefCounts, Unindexed;
  }

  lemma {:induction false} LoadNewCounts(e: Env, t: Tables, ts: Stream, n: int, count: int, fallback: bool)
    ensures var l := LoadNew(e, t, ts, n, count, fallback); l.Some? ==> l.value.t.nNew == t.nNew
    decreases count - n
  {
    hide EnterNew, LoadNew;
    NewNext(e, t, ts, n, count, fallback);
    if n < count && ts != [] && ts[0].Entry? {
      EnterNewCounts(e, t, n, ts[0], fallback);
      LoadNewCounts(e, EnterNew(e, t, n, ts[0], fallback), ts[1..], n + 1, count, fallback);
    }
  }

  lemma EnterNewCounts(e: Env, t: Tables, n: int, x: Token, fallback: bool)
    requires x.Entry?
    ensures EnterNew(e, t, n, x, fallback).nNew == t.nNew
  {
  }

  lemma BucketsIf(ts: Stream)
    requires HeaderOk(ts) && Usable(ts)
    ensures Buckets(ts) == NEW_BUCKETS
  {
  }
}
