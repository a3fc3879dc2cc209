/**
 * Layers of caches over the coin database, as values: what reading, modifying and flushing do to them, and the
 * proof that every layer stands for a plain map from transactions to their unspent outputs.
 */
module CoinsViews {
  import opened Coins
  import opened Wrappers

  type TxId = nat

  /** A cache entry. `isDirty`: may differ from the parent view. `isFresh`: the parent view has no unspent outputs. */
  datatype Entry = Entry(coins: Coins, isDirty: bool, isFresh: bool)

  /** The database, or a cache on top of a view. A zero `hash` means that the best block was not read or set. */
  datatype View =
    | Disk(coins: map<TxId, Coins>, best: nat)
    | Cache(parent: View, entries: map<TxId, Entry>, hash: nat)

  // ----- what a view stands for

  function Unpruned(c: Coins): Option<Coins>
  {
    if IsPruned(c) then None else Some(c)
  }

  /** The unspent outputs that a view has for a transaction; spent entirely counts as absent. */
  function Find(v: View, id: TxId): Option<Coins>
  {
    match v
    case Disk(coins, _) => if id in coins then Unpruned(coins[id]) else None
    case Cache(parent, entries, _) => if id in entries then Unpruned(entries[id].coins) else Find(parent, id)
  }

  function Best(v: View): nat
  {
    if v.Disk? then v.best else if v.hash != 0 then v.hash else Best(v.parent)
  }

  // ----- the operations

  /** Reads a transaction's coins, filling the caches on the way. */
  function Fetch(v: View, id: TxId): (View, Option<Coins>)
  {
    match v
    case Disk(coins, _) => (v, if id in coins then Some(coins[id]) else None)
    case Cache(parent, entries, hash) =>
      if id in entries then (v, Some(entries[id].coins))
      else
        var (below, r) := Fetch(parent, id);
        match r
        case None => (Cache(below, entries, hash), None)
        case Some(c) => (Cache(below, entries[id := Entry(c, false, IsPruned(c))], hash), Some(c))
  }

  /** Opens a transaction's entry for modification. */
  function Open(v: View, id: TxId): (w: View)
    requires v.Cache?
    ensures w.Cache? && id in w.entries && w.hash == v.hash
  {
    if id in v.entries then v.(entries := v.entries[id := v.entries[id].(isDirty := true)])
    else
      var (below, r) := Fetch(v.parent, id);
      var e := match r case None => Entry(NO_COINS, true, true) case Some(c) => Entry(c, true, IsPruned(c));
      Cache(below, v.entries[id := e], v.hash)
  }

  /** Closes it again, with the coins the modification has left. */
  function Close(v: View, id: TxId, coins: Coins): View
    requires v.Cache? && id in v.entries
  {
    var c, isFresh := Trim(coins), v.entries[id].isFresh;
    if isFresh && IsPruned(c) then v.(entries := v.entries - {id})
    else v.(entries := v.entries[id := v.entries[id].(coins := c)])
  }

  function Modify(v: View, id: TxId, coins: Coins): View
    requires v.Cache?
  {
    Close(Open(v, id), id, coins)
  }

  /** What becomes of a parent's entry when a child's entry is written into the parent. */
  function Merge(child: Option<Entry>, own: Option<Entry>): Option<Entry>
  {
    if child.None? || !child.value.isDirty then own
    else
      var pruned := IsPruned(child.value.coins);
      match own
      case None => if pruned then None else Some(Entry(child.value.coins, true, true))
      case Some(u) => if u.isFresh && pruned then None else Some(Entry(child.value.coins, true, u.isFresh))
  }

  function At<T>(m: map<TxId, T>, id: TxId): Option<T>
  {
    if id in m then Some(m[id]) else None
  }

  function Merged(child: map<TxId, Entry>, own: map<TxId, Entry>): map<TxId, Entry>
  {
    map id | id in child.Keys + own.Keys && Merge(At(child, id), At(own, id)).Some? ::
      Merge(At(child, id), At(own, id)).value
  }

  /** What becomes of the database's coins: pruned ones are erased, others are stored trimmed. */
  function Store(child: Option<Entry>, own: Option<Coins>): Option<Coins>
  {
    if child.None? || !child.value.isDirty then own
    else if IsPruned(child.value.coins) then None else Some(Trim(child.value.coins))
  }

  function Stored(child: map<TxId, Entry>, own: map<TxId, Coins>): map<TxId, Coins>
  {
    map id | id in child.Keys + own.Keys && Store(At(child, id), At(own, id)).Some? ::
      Store(At(child, id), At(own, id)).value
  }

  function BatchWrite(v: View, child: map<TxId, Entry>, hash: nat): View
  {
    match v
    case Disk(coins, best) => Disk(Stored(child, coins), if hash != 0 then hash else best)
    case Cache(parent, entries, _) => Cache(parent, Merged(child, entries), hash)
  }

  /** The entries that the assertion in BatchWrite is about: only a fresh entry may be new to the parent. */
  predicate MayWrite(v: View, child: map<TxId, Entry>)
  {
    v.Cache? ==> forall id :: id in child && child[id].isDirty && id !in v.entries && !IsPruned(child[id].coins) ==> child[id].isFresh
  }

  function Flush(v: View): View
    requires v.Cache?
  {
    Cache(BatchWrite(v.parent, v.entries, v.hash), map[], v.hash)
  }

  function ReadBest(v: View): View
  {
    if v.Disk? || v.hash != 0 then v
    else
      var below := ReadBest(v.parent);
      Cache(below, v.entries, Best(below))
  }

  // ----- the invariant

  /** The parent can hold a transaction back from being fresh: it is in its cache, or it is the database. */
  predicate Holds(v: View, id: TxId)
  {
    v.Disk? || id in v.entries
  }

  predicate EntryOk(parent: View, id: TxId, e: Entry)
  {
    && IsTrimmed(e.coins)
    && (e.isFresh ==> Find(parent, id) == None)
    && (!e.isFresh ==> Holds(parent, id))
    && (!e.isDirty ==> Find(parent, id) == Unpruned(e.coins))
  }

  predicate Ok(v: View)
  {
    match v
    case Disk(coins, _) => forall id :: id in coins ==> IsTrimmed(coins[id])
    case Cache(parent, entries, _) => Ok(parent) && forall id :: id in entries ==> EntryOk(parent, id, entries[id])
  }

  // ----- reading

  /** Layer by layer, two views have the same unspent outputs and the same best block. */
  ghost predicate SameLevels(v: View, w: View)
  {
    && (v.Disk? <==> w.Disk?)
    && (forall k :: Find(v, k) == Find(w, k)) && Best(v) == Best(w)
    && (v.Cache? ==> SameLevels(v.parent, w.parent))
  }

  lemma {:induction false} SameAsItself(v: View)
    ensures SameLevels(v, v)
  {
    if v.Cache? { SameAsItself(v.parent); }
  }

  lemma SameOnTop(v: View, w: View)
    requires v.Cache? && w.Cache? && SameLevels(v.parent, w.parent) && (w.hash == v.hash || (v.hash == 0 && w.hash == Best(w.parent)))
    requires forall k :: (k in v.entries ==> k in w.entries)
    requires forall k :: k in w.entries ==>
      Unpruned(w.entries[k].coins) == if k in v.entries then Unpruned(v.entries[k].coins) else Find(v.parent, k)
    ensures SameLevels(v, w)
  {
    forall k ensures Find(v, k) == Find(w, k) {}
    assert Best(v) == Best(w);
  }

  /** Reading finds what the view stands for, and changes no layer's view. */
  lemma {:induction false} FetchIsRight(v: View, id: TxId)
    requires Ok(v)
    ensures var (w, r) := Fetch(v, id);
      && Ok(w) && SameLevels(v, w) && (v.Cache? ==> w.hash == v.hash)
      && Find(v, id) == (if r.None? then None else Unpruned(r.value))
      && (r.Some? ==> IsTrimmed(r.value) && Holds(w, id))
      && (forall k :: Holds(v, k) ==> Holds(w, k))
  {
    SameAsItself(v);
    if v.Cache? && id !in v.entries {
      FetchIsRight(v.parent, id);
      var (below, r) := Fetch(v.parent, id);
      forall k | k in v.entries ensures EntryOk(below, k, v.entries[k]) {
        assert EntryOk(v.parent, k, v.entries[k]);
      }
      SameOnTop(v, Fetch(v, id).0);
    }
  }

  /** After a read of a trimmed entry, having outputs at all and having unspent ones are the same. */
  lemma HaveCoinsIsRight(v: View, id: TxId)
    requires Ok(v)
    ensures var r := Fetch(v, id).1; (r.Some? && r.value.outs != []) <==> Find(v, id).Some?
  {
    FetchIsRight(v, id);
    var r := Fetch(v, id).1;
    if r.Some? { TrimKeeps(r.value); }
  }

  /** What was just read into a cache is clean, and fresh exactly if the parent view has no unspent outputs for it. */
  lemma ReadIsFreshIff(v: View, id: TxId)
    requires Ok(v) && v.Cache? && id !in v.entries && Fetch(v, id).1.Some?
    ensures var w := Fetch(v, id).0;
      w.Cache? && id in w.entries && !w.entries[id].isDirty && (w.entries[id].isFresh <==> Find(v.parent, id) == None)
  {
    FetchIsRight(v.parent, id);
  }

  /** A transaction that the parent has no unspent outputs of, and that is spent in the cache, leaves nothing there. */
  lemma SpentIsForgotten(v: View, id: TxId, spent: Coins)
    requires Ok(v) && v.Cache? && IsPruned(spent) && Find(v.parent, id) == None
    requires id in v.entries ==> v.entries[id].isFresh
    ensures id !in Modify(v, id, spent).entries
  {
    FetchIsRight(v.parent, id);
    TrimKeeps(spent);
  }

  /** A new transaction is entered as fresh and dirty; so whatever is done to it in the cache, spending it undoes. */
  lemma NewIsFresh(v: View, id: TxId, coins: Coins)
    requires Ok(v) && v.Cache? && !IsPruned(coins) && Find(v.parent, id) == None
    requires id in v.entries ==> v.entries[id].isFresh
    ensures var w := Modify(v, id, coins); id in w.entries && w.entries[id] == Entry(Trim(coins), true, true)
  {
    FetchIsRight(v.parent, id);
    TrimKeeps(coins);
  }

  lemma {:induction false} ReadBestIsRight(v: View)
    requires Ok(v)
    ensures Ok(ReadBest(v)) && SameLevels(v, ReadBest(v)) && (forall k :: Holds(v, k) <==> Holds(ReadBest(v), k))
    ensures v.Cache? ==> ReadBest(v).hash == Best(v)
  {
    SameAsItself(v);
    if v.Cache? && v.hash == 0 {
      ReadBestIsRight(v.parent);
      forall k | k in v.entries ensures EntryOk(ReadBest(v.parent), k, v.entries[k]) {
        assert EntryOk(v.parent, k, v.entries[k]);
      }
      SameOnTop(v, ReadBest(v));
    }
  }

  // ----- modifying

  lemma OpenIsRight(v: View, id: TxId)
    requires Ok(v) && v.Cache?
    ensures var w := Open(v, id);
      && Ok(w) && SameLevels(v, w) && w.entries[id].isDirty
      && (forall k :: k != id ==> At(w.entries, k) == At(v.entries, k))
      && Find(w, id) == Unpruned(w.entries[id].coins)
  {
    SameAsItself(v);
    TrimKeeps(NO_COINS);
    if id !in v.entries {
      FetchIsRight(v.parent, id);
      var below := Fetch(v.parent, id).0;
      forall k | k in v.entries ensures EntryOk(below, k, v.entries[k]) {
        assert EntryOk(v.parent, k, v.entries[k]);
      }
    } else {
      SameAsItself(v.parent);
    }
    SameOnTop(v, Open(v, id));
  }

  lemma CloseIsRight(v: View, id: TxId, coins: Coins)
    requires Ok(v) && v.Cache? && id in v.entries && v.entries[id].isDirty
    ensures var w := Close(v, id, coins);
      && Ok(w) && w.Cache? && w.parent == v.parent && Best(w) == Best(v)
      && (forall k :: Find(w, k) == if k == id then Unpruned(Trim(coins)) else Find(v, k))
  {
    TrimKeeps(coins);
  }

  /** A modification changes what the layer has for its own transaction, and nothing else in any layer. */
  lemma ModifyIsRight(v: View, id: TxId, coins: Coins)
    requires Ok(v) && v.Cache?
    ensures var w := Modify(v, id, coins);
      && Ok(w) && w.Cache? && SameLevels(v.parent, w.parent) && Best(w) == Best(v)
      && (forall k :: Find(w, k) == if k == id then Unpruned(Trim(coins)) else Find(v, k))
  {
    hide Open, Close, Ok;
    OpenIsRight(v, id);
    CloseIsRight(Open(v, id), id, coins);
  }

  // ----- flushing

  /** The assertion in BatchWrite holds: an entry unknown to the parent cache is fresh. */
  lemma FlushMayWrite(v: View)
    requires Ok(v) && v.Cache?
    ensures MayWrite(v.parent, v.entries)
  {
    forall id | id in v.entries && !Holds(v.parent, id) ensures v.entries[id].isFresh {
      assert EntryOk(v.parent, id, v.entries[id]);
    }
  }

  /** Writing one entry into the parent makes the parent's view of it the child's. */
  lemma MergeIsRight(parent: View, own: Option<Entry>, id: TxId, child: Option<Entry>)
    requires child.Some? ==> IsTrimmed(child.value.coins) && (child.value.isFresh || own.Some?)
    requires own.Some? ==> EntryOk(parent, id, own.value)
    requires var find := if own.Some? then Unpruned(own.value.coins) else Find(parent, id);
      child.Some? ==> (child.value.isFresh ==> find == None) && (!child.value.isDirty ==> find == Unpruned(child.value.coins))
    ensures Merge(child, own).Some? ==> EntryOk(parent, id, Merge(child, own).value)
    ensures var find := if own.Some? then Unpruned(own.value.coins) else Find(parent, id);
      (if Merge(child, own).Some? then Unpruned(Merge(child, own).value.coins) else Find(parent, id))
      == if child.Some? then Unpruned(child.value.coins) else find
  {
    hide Find, IsTrimmed;
  }

  lemma BatchWriteIsRight(v: View)
    requires Ok(v) && v.Cache?
    ensures var p := BatchWrite(v.parent, v.entries, v.hash);
      && Ok(p) && (p.Disk? <==> v.parent.Disk?) && (p.Cache? ==> p.parent == v.parent.parent)
      && (forall k :: Find(p, k) == Find(v, k))
  {
    var p := BatchWrite(v.parent, v.entries, v.hash);
    if v.parent.Disk? {
      forall k ensures Find(p, k) == Find(v, k) && (k in p.coins ==> IsTrimmed(p.coins[k])) {
        StoreIsRight(v, k);
      }
    } else {
      forall k ensures Find(p, k) == Find(v, k) && (k in p.entries ==> EntryOk(p.parent, k, p.entries[k])) {
        if k in v.parent.entries { assert EntryOk(v.parent.parent, k, v.parent.entries[k]); }
        if k in v.entries { assert EntryOk(v.parent, k, v.entries[k]); }
        MergeIsRight(v.parent.parent, At(v.parent.entries, k), k, At(v.entries, k));
      }
    }
  }

  lemma StoreIsRight(v: View, k: TxId)
    requires Ok(v) && v.Cache? && v.parent.Disk?
    ensures var s := Store(At(v.entries, k), At(v.parent.coins, k));
      (if s.Some? then Unpruned(s.value) else None) == Find(v, k) && (s.Some? ==> IsTrimmed(s.value))
  {
    if k in v.entries {
      assert EntryOk(v.parent, k, v.entries[k]);
      TrimKeeps(v.entries[k].coins);
    }
  }

  /** Flushing makes the parent's view the child's, keeps the child's, and changes no deeper layer. */
  lemma FlushIsRight(v: View)
    requires Ok(v) && v.Cache?
    ensures MayWrite(v.parent, v.entries)
    ensures var w := Flush(v);
      && Ok(w) && w.Cache? && (w.parent.Disk? <==> v.parent.Disk?)
      && (w.parent.Cache? ==> w.parent.parent == v.parent.parent)
      && (forall k :: Find(w, k) == Find(v, k) && Find(w.parent, k) == Find(v, k))
  {
    FlushMayWrite(v);
    BatchWriteIsRight(v);
  }

  /** The best block was set or read in the layer, or would be found below its parent anyway. */
  predicate HandsOnBest(v: View)
    requires v.Cache?
  {
    v.hash != 0 || v.parent.Disk? || Best(v.parent.parent) == Best(v.parent)
  }

  /** Flushing hands the best block on, and keeps it, under exactly that condition. */
  lemma FlushBestBlock(v: View)
    requires v.Cache?
    ensures Best(Flush(v).parent) == Best(v) <==> HandsOnBest(v)
    ensures Best(Flush(v)) == Best(v) <==> HandsOnBest(v)
  {
  }

  /** A cache that was never asked for its best block, on top of one in which that was set to 2. */
  const UNREAD: View := Cache(Cache(Disk(map[], 1), map[], 2), map[], 0)

  lemma FlushMayLoseBest()
    ensures Ok(UNREAD) && Best(UNREAD) == Best(UNREAD.parent) == 2 && Best(Flush(UNREAD)) == Best(Flush(UNREAD).parent) == 1
  {
  }

  // ----- the stack of layers refines a stack of plain maps with their best blocks

  datatype Plain = Plain(coins: map<TxId, Coins>, best: nat)

  function Known(v: View): set<TxId>
  {
    if v.Disk? then v.coins.Keys else Known(v.parent) + v.entries.Keys
  }

  lemma {:induction false} FoundIsKnown(v: View, id: TxId)
    ensures Find(v, id).Some? ==> id in Known(v)
  {
    if v.Cache? { FoundIsKnown(v.parent, id); }
  }

  /** The unspent outputs of all transactions, as a plain map. */
  function Contents(v: View): map<TxId, Coins>
  {
    map id | id in Known(v) && Find(v, id).Some? :: Find(v, id).value
  }

  lemma ContentsAre(v: View)
    ensures forall id :: At(Contents(v), id) == Find(v, id)
  {
    hide Find, Known;
    forall id ensures At(Contents(v), id) == Find(v, id) { FoundIsKnown(v, id); }
  }

  lemma SameContents(v: View, w: View)
    requires forall k :: Find(v, k) == Find(w, k)
    ensures Contents(v) == Contents(w)
  {
    hide Find, Contents;
    ContentsAre(v);
    ContentsAre(w);
    forall k ensures k in Contents(v) <==> k in Contents(w) {
      assert At(Contents(v), k) == At(Contents(w), k);
    }
    forall k | k in Contents(v) ensures Contents(v)[k] == Contents(w)[k] {
      assert At(Contents(v), k) == At(Contents(w), k);
    }
  }

  /** What all layers stand for, the database first. */
  function Levels(v: View): (s: seq<Plain>)
    ensures s != [] && s[|s| - 1] == Plain(Contents(v), Best(v)) && (v.Disk? <==> |s| == 1)
  {
    if v.Disk? then [Plain(Contents(v), Best(v))] else Levels(v.parent) + [Plain(Contents(v), Best(v))]
  }

  lemma {:induction false} SameLevelsAre(v: View, w: View)
    requires SameLevels(v, w)
    ensures Levels(v) == Levels(w)
  {
    SameContents(v, w);
    if v.Cache? { SameLevelsAre(v.parent, w.parent); }
  }

  /** Two stacks with the same coins in each layer, if not the same best blocks. */
  ghost predicate SameCoins(s: seq<Plain>, t: seq<Plain>)
  {
    |s| == |t| && forall i :: 0 <= i < |s| ==> s[i].coins == t[i].coins
  }

  datatype Op =
    | Push                                   // a new cache on top
    | Pop                                    // the topmost cache is dropped
    | Read(id: TxId)
    | Change(id: TxId, coins: Coins)
    | SetBest(hash: nat)
    | GetBest
    | FlushTop

  /** What an operation on the topmost cache does to the layers. */
  function Apply(v: View, op: Op): View
  {
    match op
    case Push => Cache(v, map[], 0)
    case Pop => if v.Cache? then v.parent else v
    case Read(id) => Fetch(v, id).0
    case Change(id, coins) => if v.Cache? then Modify(v, id, coins) else v
    case SetBest(hash) => if v.Cache? then v.(hash := hash) else v
    case GetBest => ReadBest(v)
    case FlushTop => if v.Cache? then Flush(v) else v
  }

  /** What it does to a stack of plain maps. A best block of zero is that of the layer below. */
  function PlainApply(s: seq<Plain>, op: Op): (r: seq<Plain>)
    requires s != []
    ensures r != []
  {
    var last, top := |s| - 1, s[|s| - 1];
    match op
    case Push => s + [top]
    case Pop => if last > 0 then s[..last] else s
    case Change(id, coins) =>
      if last == 0 then s
      else s[last := top.(coins := if IsPruned(coins) then top.coins - {id} else top.coins[id := Trim(coins)])]
    case SetBest(hash) => if last == 0 then s else s[last := top.(best := if hash != 0 then hash else s[last - 1].best)]
    case FlushTop => if last == 0 then s else s[last - 1 := top]
    case _ => s
  }

  lemma PushRefines(v: View)
    requires Ok(v)
    ensures Ok(Apply(v, Push)) && Levels(Apply(v, Push)) == PlainApply(Levels(v), Push)
    ensures SameCoins(Levels(Apply(v, Push)), PlainApply(Levels(v), Push))
  {
    SameContents(v, Cache(v, map[], 0));
    hide Contents;
  }

  lemma PopRefines(v: View)
    requires Ok(v)
    ensures Ok(Apply(v, Pop)) && Levels(Apply(v, Pop)) == PlainApply(Levels(v), Pop)
    ensures SameCoins(Levels(Apply(v, Pop)), PlainApply(Levels(v), Pop))
  {
    hide Contents;
    assert v.Cache? ==> Levels(v)[..|Levels(v)| - 1] == Levels(v.parent);
  }

  lemma SetBestRefines(v: View, hash: nat)
    requires Ok(v)
    ensures Ok(Apply(v, SetBest(hash))) && Levels(Apply(v, SetBest(hash))) == PlainApply(Levels(v), SetBest(hash))
    ensures SameCoins(Levels(Apply(v, SetBest(hash))), PlainApply(Levels(v), SetBest(hash)))
  {
    if v.Cache? {
      SameContents(v, v.(hash := hash));
      hide Contents;
      var below := Levels(v.parent);
      assert below[|below| - 1].best == Best(v.parent);
    }
  }

  lemma ReadRefines(v: View, id: TxId)
    requires Ok(v)
    ensures Ok(Fetch(v, id).0) && Levels(Fetch(v, id).0) == Levels(v) && ReadsRight(v, Read(id))
  {
    hide Contents, Fetch, SameLevels;
    FetchIsRight(v, id);
    SameLevelsAre(v, Fetch(v, id).0);
    ContentsAre(v);
  }

  lemma ChangeRefines(v: View, id: TxId, coins: Coins)
    requires Ok(v) && v.Cache?
    ensures Ok(Modify(v, id, coins)) && Levels(Modify(v, id, coins)) == PlainApply(Levels(v), Change(id, coins))
  {
    hide *;
    var w := Modify(v, id, coins);
    ModifyIsRight(v, id, coins);
    SameLevelsAre(v.parent, w.parent);
    ChangedContents(v, w, id, coins);
    LevelsAre(v);
    LevelsAre(w);
    PlainChange(Levels(v.parent), Levels(v)[|Levels(v)| - 1], id, coins);
  }

  lemma LevelsAre(v: View)
    requires v.Cache?
    ensures Levels(v) == Levels(v.parent) + [Plain(Contents(v), Best(v))]
  {
    hide Contents, Best;
  }

  lemma PlainChange(below: seq<Plain>, top: Plain, id: TxId, coins: Coins)
    requires below != []
    ensures PlainApply(below + [top], Change(id, coins))
      == below + [top.(coins := if IsPruned(coins) then top.coins - {id} else top.coins[id := Trim(coins)])]
  {
    hide IsPruned, Trim;
  }

  lemma ChangedContents(v: View, w: View, id: TxId, coins: Coins)
    requires forall k :: Find(w, k) == if k == id then Unpruned(Trim(coins)) else Find(v, k)
    ensures Contents(w) == if IsPruned(coins) then Contents(v) - {id} else Contents(v)[id := Trim(coins)]
  {
    TrimKeeps(coins);
    ContentsAre(v);
    ContentsAre(w);
    hide Find, Contents, Trim, IsPruned;
    var m := if IsPruned(coins) then Contents(v) - {id} else Contents(v)[id := Trim(coins)];
    forall k ensures At(Contents(w), k) == At(m, k) {}
    SameMaps(Contents(w), m);
  }

  lemma SameMaps(m: map<TxId, Coins>, n: map<TxId, Coins>)
    requires forall k :: At(m, k) == At(n, k)
    ensures m == n
  {
    forall k ensures k in m <==> k in n { assert At(m, k) == At(n, k); }
    forall k | k in m ensures m[k] == n[k] { assert At(m, k) == At(n, k); }
  }

  lemma FlushRefines(v: View)
    requires Ok(v) && v.Cache?
    ensures Ok(Flush(v)) && SameCoins(Levels(Flush(v)), PlainApply(Levels(v), FlushTop))
    ensures Levels(Flush(v)) == PlainApply(Levels(v), FlushTop) <==> HandsOnBest(v)
  {
    hide *;
    var w := Flush(v);
    FlushBestBlock(v);
    FlushIsRight(v);
    SameContents(v, w);
    SameContents(v, w.parent);
    FlushedLevels(v, w);
    FlushedPlain(Levels(v), Best(w.parent), Best(w));
  }

  lemma FlushedLevels(v: View, w: View)
    requires v.Cache? && w.Cache? && (w.parent.Disk? <==> v.parent.Disk?)
    requires w.parent.Cache? ==> w.parent.parent == v.parent.parent
    requires Contents(w) == Contents(v) && Contents(w.parent) == Contents(v)
    ensures |Levels(v)| >= 2 && Levels(v)[|Levels(v)| - 1] == Plain(Contents(v), Best(v))
    ensures Levels(w) == Levels(v)[..|Levels(v)| - 2] + [Plain(Contents(v), Best(w.parent)), Plain(Contents(v), Best(w))]
  {
    hide Contents, Best;
    if v.parent.Cache? {
      var below := Levels(v.parent.parent);
      assert Levels(v)[..|Levels(v)| - 2] == below;
      assert Levels(w) == below + [Plain(Contents(v), Best(w.parent))] + [Plain(Contents(v), Best(w))];
    }
  }

  lemma FlushedPlain(s: seq<Plain>, parentBest: nat, best: nat)
    requires |s| >= 2
    ensures var n, top := |s|, s[|s| - 1];
      var t := s[..n - 2] + [Plain(top.coins, parentBest), Plain(top.coins, best)];
      SameCoins(t, PlainApply(s, FlushTop)) && (t == PlainApply(s, FlushTop) <==> parentBest == best == top.best)
  {
    var n, top := |s|, s[|s| - 1];
    var t := s[..n - 2] + [Plain(top.coins, parentBest), Plain(top.coins, best)];
    assert PlainApply(s, FlushTop) == s[..n - 2] + [top, top];
    assert t[n - 2].best == parentBest && t[n - 1].best == best;
    assert PlainApply(s, FlushTop)[n - 2] == PlainApply(s, FlushTop)[n - 1] == top;
  }

  /** What the operation returns, if it reads. */
  ghost predicate ReadsRight(v: View, op: Op)
  {
    match op
    case Read(id) => (match Fetch(v, id).1 case None => None case Some(c) => Unpruned(c)) == At(Contents(v), id)
    case GetBest => v.Cache? ==> ReadBest(v).hash == Levels(v)[|Levels(v)| - 1].best
    case _ => true
  }

  /** The operation does not flush, or flushes a cache that hands its best block on. */
  predicate KeepsBest(v: View, op: Op)
  {
    op.FlushTop? && v.Cache? ==> HandsOnBest(v)
  }

  /**
   * Every operation does to the layers' coins what it does to the plain maps, keeps the invariant, and reads what they
   * hold; to their best blocks too, except exactly when a flush does not hand the best block on.
   */
  lemma OpRefines(v: View, op: Op)
    requires Ok(v)
    ensures Ok(Apply(v, op)) && SameCoins(Levels(Apply(v, op)), PlainApply(Levels(v), op))
    ensures Levels(Apply(v, op)) == PlainApply(Levels(v), op) <==> KeepsBest(v, op)
    ensures op.FlushTop? && v.Cache? ==> MayWrite(v.parent, v.entries)
    ensures ReadsRight(v, op)
  {
    hide Contents, Modify, Flush, Fetch, ReadBest, MayWrite, HandsOnBest, Ok, Find, SameLevels, SameCoins;
    SameAsSelf(Levels(v));
    match op
    case Push => PushRefines(v);
    case Pop => PopRefines(v);
    case Read(id) => ReadRefines(v, id);
    case Change(id, coins) => if v.Cache? { ChangeRefines(v, id, coins); SameAsSelf(Levels(Modify(v, id, coins))); }
    case SetBest(hash) => SetBestRefines(v, hash);
    case GetBest => ReadBestIsRight(v); SameLevelsAre(v, ReadBest(v));
    case FlushTop => if v.Cache? { FlushMayWrite(v); FlushRefines(v); }
  }

  function Run(v: View, ops: seq<Op>): View
  {
    if ops == [] then v else Apply(Run(v, ops[..|ops| - 1]), ops[|ops| - 1])
  }

  function PlainRun(s: seq<Plain>, ops: seq<Op>): (r: seq<Plain>)
    requires s != []
    ensures r != []
  {
    if ops == [] then s else PlainApply(PlainRun(s, ops[..|ops| - 1]), ops[|ops| - 1])
  }

  /** Every flush in the run hands the best block on. */
  predicate AllKeepBest(v: View, ops: seq<Op>)
  {
    ops == [] || (AllKeepBest(v, ops[..|ops| - 1]) && KeepsBest(Run(v, ops[..|ops| - 1]), ops[|ops| - 1]))
  }

  lemma SameCoinsApply(s: seq<Plain>, t: seq<Plain>, op: Op)
    requires s != [] && SameCoins(s, t)
    ensures t != [] && SameCoins(PlainApply(s, op), PlainApply(t, op))
  {
    hide IsPruned, Trim;
  }

  lemma SameCoinsTrans(s: seq<Plain>, t: seq<Plain>, u: seq<Plain>)
    requires SameCoins(s, t) && SameCoins(t, u)
    ensures SameCoins(s, u)
  {
  }

  /**
   * Over every run, the layers' coins are what the plain maps hold, and so are their best blocks if every flush hands
   * the best block on.
   */
  lemma {:induction false} RunRefines(v: View, ops: seq<Op>)
    requires Ok(v)
    ensures Ok(Run(v, ops)) && SameCoins(Levels(Run(v, ops)), PlainRun(Levels(v), ops))
    ensures AllKeepBest(v, ops) ==> Levels(Run(v, ops)) == PlainRun(Levels(v), ops)
  {
    hide Ok, Levels, PlainApply, Apply, KeepsBest, SameCoins;
    if ops != [] {
      var most, last := ops[..|ops| - 1], ops[|ops| - 1];
      RunRefines(v, most);
      OpRefines(Run(v, most), last);
      SameCoinsApply(Levels(Run(v, most)), PlainRun(Levels(v), most), last);
      SameCoinsTrans(Levels(Run(v, ops)), PlainApply(Levels(Run(v, most)), last), PlainRun(Levels(v), ops));
    } else {
      SameAsSelf(Levels(v));
    }
  }

  lemma SameAsSelf(s: seq<Plain>)
    ensures SameCoins(s, s)
  {
  }
}
