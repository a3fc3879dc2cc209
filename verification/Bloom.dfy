/**
 * The bloom filter of a lightweight client, with its shortcuts for full and empty filters, and the matching of
 * transactions that adds the outputs it finds to the filter (BIP 37, "Filter matching algorithm").
 */
module Bloom {
  import opened Bits
  import opened Radix
  import opened Wrappers

  type Key = seq<Byte>

  datatype Update = Nothing | All | PubKeyOnly

  /** Arbitrary hash functions, by number; the serialized form of an outpoint; and the update flags. */
  datatype Env = Env(nHashFuncs: nat, hash: (nat, Key) -> nat, outpoint: (Key, nat) -> Key, update: Update)

  /** The data elements of a script, as far as it can be parsed. */
  type Script = seq<Key>

  datatype TxOut = TxOut(script: Script, isPubKeyOrMultisig: bool)

  datatype TxIn = TxIn(prevout: Key, script: Script)

  datatype Tx = Tx(hash: Key, vout: seq<TxOut>, vin: seq<TxIn>)

  // ----- the plain filter

  type Data = seq<bv8>

  predicate IsSet(data: Data, n: nat)
  {
    n / 8 < |data| && HasBit(data[n / 8], n % 8)
  }

  function Index(e: Env, data: Data, i: nat, key: Key): (n: nat)
    requires data != []
    ensures n / 8 < |data|
  {
    IndexInRange(e.hash(i, key), |data|);
    e.hash(i, key) % (8 * |data|)
  }

  lemma IndexInRange(h: nat, size: nat)
    requires size > 0
    ensures h % (8 * size) / 8 < size
  {
  }

  /** The bits of a key by the first `k` hash functions are set. */
  predicate HasBits(e: Env, data: Data, key: Key, k: nat)
    requires data != []
  {
    forall i: nat :: i < k ==> IsSet(data, Index(e, data, i, key))
  }

  /** What the filter answers without its shortcuts. */
  predicate Has(e: Env, data: Data, key: Key)
    requires data != []
  {
    HasBits(e, data, key, e.nHashFuncs)
  }

  function WithBit(data: Data, n: nat): (r: Data)
    requires n / 8 < |data|
    ensures |r| == |data|
  {
    data[n / 8 := data[n / 8] | Bit(n % 8)]
  }

  /** The filter with the bits of a key by the first `k` hash functions set. */
  function Inserted(e: Env, data: Data, key: Key, k: nat): (r: Data)
    requires data != []
    ensures |r| == |data|
  {
    if k == 0 then data
    else
      var r := Inserted(e, data, key, k - 1);
      WithBit(r, Index(e, r, k - 1, key))
  }

  function With(e: Env, data: Data, key: Key): (r: Data)
    requires data != []
    ensures |r| == |data|
  {
    Inserted(e, data, key, e.nHashFuncs)
  }

  ghost predicate Within(data: Data, more: Data)
  {
    |data| == |more| && forall n :: IsSet(data, n) ==> IsSet(more, n)
  }

  lemma BitsOfWith(data: Data, m: nat, n: nat)
    requires m / 8 < |data|
    ensures IsSet(WithBit(data, m), n) <==> n == m || IsSet(data, n)
  {
    hide HasBit;
    if n / 8 == m / 8 {
      SetBit(data[m / 8], m % 8, n % 8);
      assert n == 8 * (n / 8) + n % 8 && m == 8 * (m / 8) + m % 8;
    }
  }

  /** Inserting sets exactly the bits of the key. */
  lemma {:induction false} InsertedBits(e: Env, data: Data, key: Key, k: nat, n: nat)
    requires data != []
    ensures IsSet(Inserted(e, data, key, k), n) <==> IsSet(data, n) || exists i: nat :: i < k && n == Index(e, data, i, key)
  {
    hide IsSet, Index, WithBit;
    if k > 0 {
      InsertedBits(e, data, key, k - 1, n);
      var r := Inserted(e, data, key, k - 1);
      SameIndex(e, data, r, k - 1, key);
      BitsOfWith(r, Index(e, r, k - 1, key), n);
    }
  }

  lemma SameIndex(e: Env, data: Data, more: Data, i: nat, key: Key)
    requires data != [] && |data| == |more|
    ensures Index(e, data, i, key) == Index(e, more, i, key)
  {
  }

  /** After inserting, the filter has the key and everything it had before. */
  lemma WithHas(e: Env, data: Data, key: Key)
    requires data != []
    ensures Has(e, With(e, data, key), key) && Within(data, With(e, data, key))
  {
    hide IsSet, Index;
    var r := With(e, data, key);
    forall n ensures IsSet(data, n) ==> IsSet(r, n) { InsertedBits(e, data, key, e.nHashFuncs, n); }
    forall i: nat | i < e.nHashFuncs ensures IsSet(r, Index(e, r, i, key)) {
      SameIndex(e, data, r, i, key);
      InsertedBits(e, data, key, e.nHashFuncs, Index(e, data, i, key));
    }
  }

  lemma HasWithin(e: Env, data: Data, more: Data, key: Key)
    requires data != [] && Within(data, more) && Has(e, data, key)
    ensures Has(e, more, key)
  {
    hide IsSet, Index;
    forall i: nat | i < e.nHashFuncs ensures IsSet(more, Index(e, more, i, key)) { SameIndex(e, data, more, i, key); }
  }

  predicate IsFull(data: Data)
  {
    forall i :: 0 <= i < |data| ==> data[i] == 0xff
  }

  predicate IsEmpty(data: Data)
  {
    forall i :: 0 <= i < |data| ==> data[i] == 0
  }

  lemma FullHasAll(e: Env, data: Data, key: Key)
    requires data != [] && IsFull(data)
    ensures Has(e, data, key) && With(e, data, key) == data
  {
    hide Index;
    forall n: nat | n / 8 < |data| ensures IsSet(data, n) && WithBit(data, n) == data { FullBit(n % 8); }
    hide IsSet, IsFull, WithBit;
    FullUnchanged(e, data, key, e.nHashFuncs);
  }

  lemma {:induction false} FullUnchanged(e: Env, data: Data, key: Key, k: nat)
    requires data != [] && forall n: nat :: n / 8 < |data| ==> WithBit(data, n) == data
    ensures Inserted(e, data, key, k) == data
  {
    hide Index, WithBit;
    if k > 0 { FullUnchanged(e, data, key, k - 1); }
  }

  lemma FullBit(i: nat)
    requires i < 8
    ensures HasBit(0xff, i) && (0xff | Bit(i)) as bv8 == 0xff
  {
  }

  lemma EmptyHasNone(e: Env, data: Data, key: Key)
    requires data != [] && IsEmpty(data) && e.nHashFuncs > 0
    ensures !Has(e, data, key)
  {
    var n := Index(e, data, 0, key);
    ZeroHasNoBit(n % 8);
    assert !IsSet(data, n);
  }

  // ----- the filter with its shortcuts

  datatype Filter = Filter(data: Data, isFull: bool, isEmpty: bool)

  /** The shortcuts are right; a filter without bytes must be marked full. */
  ghost predicate Ok(f: Filter)
  {
    && (f.data == [] ==> f.isFull)
    && (f.isFull ==> IsFull(f.data)) && (f.isEmpty ==> IsEmpty(f.data))
  }

  function AfterInsert(e: Env, f: Filter, key: Key): Filter
    requires f.data == [] ==> f.isFull
  {
    if f.isFull then f else Filter(With(e, f.data, key), false, false)
  }

  function Answers(e: Env, f: Filter, key: Key): bool
    requires f.data == [] ==> f.isFull
  {
    f.isFull || (!f.isEmpty && Has(e, f.data, key))
  }

  function Marked(f: Filter): Filter
  {
    Filter(f.data, IsFull(f.data), IsEmpty(f.data))
  }

  function Cleared(f: Filter): Filter
  {
    Filter(seq(|f.data|, _ => 0), false, true)
  }

  lemma InsertKeepsOk(e: Env, f: Filter, key: Key)
    requires Ok(f)
    ensures Ok(AfterInsert(e, f, key)) && Within(f.data, AfterInsert(e, f, key).data)
    ensures f.data != [] ==> AfterInsert(e, f, key).data == With(e, f.data, key)
  {
    if !f.isFull { WithHas(e, f.data, key); }
    else if f.data != [] { FullHasAll(e, f.data, key); }
  }

  /** The shortcuts agree with the plain bit test, unless an empty filter has no hash functions. */
  lemma ContainsIsPlain(e: Env, f: Filter, key: Key)
    requires Ok(f) && f.data != []
    ensures Answers(e, f, key) == Has(e, f.data, key) <==> !(f.isEmpty && !f.isFull && e.nHashFuncs == 0)
  {
    if f.isFull { FullHasAll(e, f.data, key); }
    else if f.isEmpty && e.nHashFuncs > 0 { EmptyHasNone(e, f.data, key); }
  }

  /** An empty filter without hash functions has every key by the plain bit test, and answers no. */
  lemma EmptyDeniesAll(e: Env, key: Key)
    requires e.nHashFuncs == 0
    ensures var f := Filter([0], false, true); Ok(f) && Has(e, f.data, key) && !Answers(e, f, key)
  {
    ContainsIsPlain(e, Filter([0], false, true), key);
  }

  // ----- the answer in terms of the bytes

  /** Bit `n`, counted from the least significant bit of the first byte on, is one. */
  ghost predicate IsOne(data: Data, n: nat)
  {
    n / 8 < |data| && (data[n / 8] as nat) / (PowPositive(2, n % 8); Pow(2, n % 8)) % 2 == 1
  }

  lemma SetIsOne(data: Data, n: nat)
    ensures IsSet(data, n) <==> IsOne(data, n)
  {
    hide HasBit, Pow;
    if n / 8 < |data| { BitIsQuotient(data[n / 8], n % 8); }
  }

  /** A filter answers yes exactly if the bit that each hash of the key comes to, modulo the number of bits, is one. */
  lemma AnswersByBytes(e: Env, f: Filter, key: Key)
    requires Ok(f) && f.data != [] && e.nHashFuncs > 0
    ensures Answers(e, f, key) <==>
      forall i: nat :: i < e.nHashFuncs ==> IsOne(f.data, e.hash(i, key) % (8 * |f.data|))
  {
    hide IsSet, IsOne, Answers, Ok;
    ContainsIsPlain(e, f, key);
    forall n ensures IsSet(f.data, n) <==> IsOne(f.data, n) { SetIsOne(f.data, n); }
    forall i: nat ensures Index(e, f.data, i, key) == e.hash(i, key) % (8 * |f.data|) { IndexIs(e, f.data, i, key); }
    hide Index, Has;
    HasIffBits(e, f.data, key);
  }

  lemma HasIffBits(e: Env, data: Data, key: Key)
    requires data != []
    ensures Has(e, data, key) <==> forall i: nat :: i < e.nHashFuncs ==> IsSet(data, Index(e, data, i, key))
  {
  }

  /** Inserting a key sets the bits that its hashes come to, and no others. */
  lemma InsertSetsBytes(e: Env, f: Filter, key: Key, n: nat)
    requires Ok(f) && !f.isFull
    ensures f.data != [] && |AfterInsert(e, f, key).data| == |f.data|
    ensures IsOne(AfterInsert(e, f, key).data, n) <==>
      IsOne(f.data, n) || exists i: nat :: i < e.nHashFuncs && n == e.hash(i, key) % (8 * |f.data|)
  {
    hide IsSet, IsOne;
    SetIsOne(f.data, n);
    SetIsOne(AfterInsert(e, f, key).data, n);
    InsertedBits(e, f.data, key, e.nHashFuncs, n);
    forall i: nat ensures Index(e, f.data, i, key) == e.hash(i, key) % (8 * |f.data|) { IndexIs(e, f.data, i, key); }
    hide Index;
  }

  // ----- matching transactions

  predicate AnyIn(e: Env, data: Data, script: Script)
    requires data != []
  {
    exists i :: 0 <= i < |script| && script[i] != [] && Has(e, data, script[i])
  }

  predicate Updates(e: Env, o: TxOut)
  {
    e.update.All? || (e.update.PubKeyOnly? && o.isPubKeyOrMultisig)
  }

  /** The filter after the first `n` outputs: those that match at their turn are added, if the flags say so. */
  function AfterOutputs(e: Env, data: Data, tx: Tx, n: nat): (r: Data)
    requires data != [] && n <= |tx.vout|
    ensures |r| == |data|
  {
    if n == 0 then data
    else
      var r := AfterOutputs(e, data, tx, n - 1);
      if AnyIn(e, r, tx.vout[n - 1].script) && Updates(e, tx.vout[n - 1]) then With(e, r, e.outpoint(tx.hash, n - 1)) else r
  }

  /** Output `i` matches at its turn. */
  predicate OutputMatches(e: Env, data: Data, tx: Tx, i: nat)
    requires data != [] && i < |tx.vout|
  {
    AnyIn(e, AfterOutputs(e, data, tx, i), tx.vout[i].script)
  }

  predicate InputMatches(e: Env, data: Data, i: TxIn)
    requires data != []
  {
    Has(e, data, i.prevout) || AnyIn(e, data, i.script)
  }

  predicate Relevant(e: Env, data: Data, tx: Tx)
    requires data != []
  {
    || Has(e, data, tx.hash)
    || (exists i: nat :: i < |tx.vout| && OutputMatches(e, data, tx, i))
    || (exists i :: 0 <= i < |tx.vin| && InputMatches(e, data, tx.vin[i]))
  }

  /** The filter's answer for a transaction, and the filter afterwards. */
  function Matched(e: Env, f: Filter, tx: Tx): (Filter, bool)
    requires f.data == [] ==> f.isFull
  {
    if f.isFull then (f, true) else if f.isEmpty then (f, false)
    else (f.(data := AfterOutputs(e, f.data, tx, |tx.vout|)), Relevant(e, f.data, tx))
  }

  lemma {:induction false} OutputsGrow(e: Env, data: Data, tx: Tx, m: nat, n: nat)
    requires data != [] && m <= n <= |tx.vout|
    ensures Within(AfterOutputs(e, data, tx, m), AfterOutputs(e, data, tx, n))
  {
    hide IsSet, With, AnyIn, Updates;
    if m < n {
      OutputsGrow(e, data, tx, m, n - 1);
      WithHas(e, AfterOutputs(e, data, tx, n - 1), e.outpoint(tx.hash, n - 1));
    }
  }

  lemma AnyInWithin(e: Env, data: Data, more: Data, script: Script)
    requires data != [] && Within(data, more) && AnyIn(e, data, script)
    ensures AnyIn(e, more, script)
  {
    hide Has, Within;
    var i :| 0 <= i < |script| && script[i] != [] && Has(e, data, script[i]);
    HasWithin(e, data, more, script[i]);
  }

  /**
   * A filter that is not full and has a data element of an output reports the transaction and, when it is to be
   * updated with all outputs, has the output's outpoint afterwards, so that it will report what spends it.
   */
  lemma MatchedOutput(e: Env, f: Filter, tx: Tx, i: nat)
    requires Ok(f) && !f.isFull && !f.isEmpty && i < |tx.vout| && AnyIn(e, f.data, tx.vout[i].script)
    ensures var (g, found) := Matched(e, f, tx);
      found && (Updates(e, tx.vout[i]) ==> Has(e, g.data, e.outpoint(tx.hash, i)))
  {
    hide AnyIn, With, Has, Within, Updates;
    OutputsGrow(e, f.data, tx, 0, i);
    AnyInWithin(e, f.data, AfterOutputs(e, f.data, tx, i), tx.vout[i].script);
    assert OutputMatches(e, f.data, tx, i);
    WithHas(e, AfterOutputs(e, f.data, tx, i), e.outpoint(tx.hash, i));
    OutputsGrow(e, f.data, tx, i + 1, |tx.vout|);
    if Updates(e, tx.vout[i]) {
      HasWithin(e, AfterOutputs(e, f.data, tx, i + 1), AfterOutputs(e, f.data, tx, |tx.vout|), e.outpoint(tx.hash, i));
    }
  }

  /** Output `i` matches at its turn, and the flags ask for its outpoint: for all outputs, or this kind of script. */
  ghost predicate IsAdded(e: Env, data: Data, tx: Tx, i: nat)
    requires data != [] && i < |tx.vout|
  {
    OutputMatches(e, data, tx, i) && (e.update == All || (e.update == PubKeyOnly && tx.vout[i].isPubKeyOrMultisig))
  }

  /** Matching sets the bits of the outpoints that are to be added, and no others. */
  lemma {:induction false} OutputsAdd(e: Env, data: Data, tx: Tx, k: nat, n: nat)
    requires data != [] && k <= |tx.vout|
    ensures IsSet(AfterOutputs(e, data, tx, k), n) <==>
      || IsSet(data, n)
      || exists i: nat, h: nat :: i < k && h < e.nHashFuncs && IsAdded(e, data, tx, i)
           && n == Index(e, data, h, e.outpoint(tx.hash, i))
  {
    hide IsSet, Index, AnyIn;
    if k > 0 {
      OutputsAdd(e, data, tx, k - 1, n);
      var r := AfterOutputs(e, data, tx, k - 1);
      if IsAdded(e, data, tx, k - 1) {
        var key := e.outpoint(tx.hash, k - 1);
        InsertedBits(e, r, key, e.nHashFuncs, n);
        forall h: nat ensures Index(e, r, h, key) == Index(e, data, h, key) { SameIndex(e, data, r, h, key); }
      }
    }
  }

  /** What the filter has after matching: its bits, and those of the outpoints of the outputs to be added. */
  lemma MatchedBits(e: Env, f: Filter, tx: Tx, n: nat)
    requires Ok(f) && !f.isFull && !f.isEmpty
    ensures f.data != [] && |Matched(e, f, tx).0.data| == |f.data|
    ensures IsOne(Matched(e, f, tx).0.data, n) <==>
      || IsOne(f.data, n)
      || exists i: nat, h: nat :: i < |tx.vout| && h < e.nHashFuncs && IsAdded(e, f.data, tx, i)
           && n == e.hash(h, e.outpoint(tx.hash, i)) % (8 * |f.data|)
  {
    hide IsSet, IsOne, IsAdded;
    SetIsOne(f.data, n);
    SetIsOne(Matched(e, f, tx).0.data, n);
    OutputsAdd(e, f.data, tx, |tx.vout|, n);
    hide Index, AfterOutputs;
    forall h: nat, key ensures Index(e, f.data, h, key) == e.hash(h, key) % (8 * |f.data|) { IndexIs(e, f.data, h, key); }
  }

  /** The filter has a data element of the script; empty ones do not count. */
  ghost predicate HasElement(e: Env, data: Data, script: Script)
    requires data != []
  {
    exists key :: key in script && key != [] && Has(e, data, key)
  }

  /** Exactly which transactions are reported, by a filter that takes no shortcut. */
  lemma ReportedIff(e: Env, f: Filter, tx: Tx)
    requires Ok(f) && !f.isFull && !f.isEmpty
    ensures f.data != []
    ensures Matched(e, f, tx).1 <==>
      || Has(e, f.data, tx.hash)
      || (exists i: nat :: i < |tx.vout| && HasElement(e, AfterOutputs(e, f.data, tx, i), tx.vout[i].script))
      || (exists i: nat :: i < |tx.vin| && Has(e, f.data, tx.vin[i].prevout))
      || (exists i: nat :: i < |tx.vin| && HasElement(e, f.data, tx.vin[i].script))
  {
    hide Has, AfterOutputs;
    forall data: Data, script | data != [] ensures AnyIn(e, data, script) <==> HasElement(e, data, script) {
      if AnyIn(e, data, script) {
        var i :| 0 <= i < |script| && script[i] != [] && Has(e, data, script[i]);
        assert script[i] in script;
      }
    }
    hide AnyIn, HasElement;
    assert forall i: nat :: i < |tx.vin| ==>
      (InputMatches(e, f.data, tx.vin[i]) <==> Has(e, f.data, tx.vin[i].prevout) || HasElement(e, f.data, tx.vin[i].script));
    assert forall i: nat :: i < |tx.vout| ==>
      (OutputMatches(e, f.data, tx, i) <==> HasElement(e, AfterOutputs(e, f.data, tx, i), tx.vout[i].script));
  }

  /** A transaction that spends an outpoint that was found is reported. */
  lemma SpendIsReported(e: Env, f: Filter, tx: Tx, i: nat)
    requires Ok(f) && f.data != [] && i < |tx.vin| && Has(e, f.data, tx.vin[i].prevout) && (f.isEmpty ==> e.nHashFuncs > 0)
    ensures Matched(e, f, tx).1
  {
    if f.isEmpty { EmptyHasNone(e, f.data, tx.vin[i].prevout); }
    assert InputMatches(e, f.data, tx.vin[i]);
  }

  lemma MatchedKeepsOk(e: Env, f: Filter, tx: Tx)
    requires Ok(f)
    ensures Ok(Matched(e, f, tx).0) && Within(f.data, Matched(e, f, tx).0.data)
  {
    if !f.isFull && !f.isEmpty { OutputsGrow(e, f.data, tx, 0, |tx.vout|); }
  }

  // ----- runs

  datatype Op = InsertOp(key: Key) | UpdateOp | MatchOp(tx: Tx)

  function Step(e: Env, f: Filter, op: Op): Filter
    requires f.data == [] ==> f.isFull
  {
    match op
    case InsertOp(key) => AfterInsert(e, f, key)
    case UpdateOp => Marked(f)
    case MatchOp(tx) => Matched(e, f, tx).0
  }

  lemma StepKeeps(e: Env, f: Filter, op: Op)
    requires Ok(f)
    ensures Ok(Step(e, f, op)) && Within(f.data, Step(e, f, op).data)
    ensures op.InsertOp? && f.data != [] ==> Has(e, Step(e, f, op).data, op.key)
  {
    hide AfterInsert, Matched, Has, IsSet;
    match op
    case InsertOp(key) => InsertKeepsOk(e, f, key); if f.data != [] { WithHas(e, f.data, key); }
    case UpdateOp =>
    case MatchOp(tx) => MatchedKeepsOk(e, f, tx);
  }

  function Run(e: Env, f: Filter, ops: seq<Op>): (g: Filter)
    requires Ok(f)
    ensures Ok(g)
  {
    if ops == [] then f
    else
      var g := Run(e, f, ops[..|ops| - 1]);
      StepKeeps(e, g, ops[|ops| - 1]);
      Step(e, g, ops[|ops| - 1])
  }

  /** No key inserted in a run is missed at its end: neither by the plain bits nor by the shortcuts. */
  lemma {:induction false} NoKeyIsMissed(e: Env, f: Filter, ops: seq<Op>, i: nat)
    requires Ok(f) && f.data != [] && e.nHashFuncs > 0 && i < |ops| && ops[i].InsertOp?
    ensures |Run(e, f, ops).data| == |f.data| && Answers(e, Run(e, f, ops), ops[i].key)
  {
    hide Step, Has, IsSet, Answers, Ok;
    KeyStays(e, f, ops, i);
    ContainsIsPlain(e, Run(e, f, ops), ops[i].key);
  }

  lemma {:induction false} KeyStays(e: Env, f: Filter, ops: seq<Op>, i: nat)
    requires Ok(f) && f.data != [] && i < |ops| && ops[i].InsertOp?
    ensures |Run(e, f, ops).data| == |f.data| && Has(e, Run(e, f, ops).data, ops[i].key)
  {
    hide Step, Has, IsSet, Ok;
    var n := |ops| - 1;
    var g := Run(e, f, ops[..n]);
    RunSize(e, f, ops[..n]);
    StepKeeps(e, g, ops[n]);
    if i < n {
      KeyStays(e, f, ops[..n], i);
      HasWithin(e, g.data, Step(e, g, ops[n]).data, ops[i].key);
    }
  }

  lemma {:induction false} RunSize(e: Env, f: Filter, ops: seq<Op>)
    requires Ok(f)
    ensures |Run(e, f, ops).data| == |f.data|
  {
    hide Step, IsSet, Ok;
    if ops != [] {
      RunSize(e, f, ops[..|ops| - 1]);
      StepKeeps(e, Run(e, f, ops[..|ops| - 1]), ops[|ops| - 1]);
    }
  }

  // ----- the code

  class CBloomFilter {
    const e: Env
    const vData: array<bv8>
    var isFull: bool
    var isEmpty: bool

    ghost function F(): Filter
      reads this, vData
    {
      Filter(vData[..], isFull, isEmpty)
    }

    ghost predicate Valid()
      reads this, vData
    {
      Ok(F())
    }

    /** A new filter of some size. Without any bytes it is of no use before it is marked: hashing divides by the size. */
    constructor (e: Env, size: nat)
      ensures this.e == e && fresh(vData) && F() == Filter(seq(size, _ => 0), false, false)
      ensures Valid() <==> size > 0
    {
      this.e, vData := e, new bv8[size](_ => 0);
      isFull, isEmpty := false, false;
      new;
      assert vData[..] == seq(size, _ => 0);
    }

    /** A filter as it was received. It counts as full until its shortcuts are set. */
    constructor Received(e: Env, data: array<bv8>)
      ensures this.e == e && vData == data && F() == Filter(data[..], true, false)
      ensures Valid() <==> IsFull(data[..])
    {
      this.e, vData := e, data;
      isFull, isEmpty := true, false;
    }

    method Insert(key: Key)
      requires Valid()
      modifies this`isEmpty, vData
      ensures Valid() && F() == AfterInsert(e, old(F()), key)
    {
      InsertKeepsOk(e, F(), key);
      hide Ok, Index, WithBit;
      if isFull {
        return;
      }
      assert vData.Length > 0 by { NotFullHasData(F()); }
      for i := 0 to e.nHashFuncs
        invariant vData[..] == Inserted(e, old(vData[..]), key, i)
      {
        var nIndex := e.hash(i, key) % (8 * vData.Length);
        IndexIs(e, vData[..], i, key);
        ghost var was := vData[..];
        vData[nIndex / 8] := vData[nIndex / 8] | Bit(nIndex % 8);
        WithBitIs(was, nIndex);
        assert vData[..] == was[nIndex / 8 := was[nIndex / 8] | Bit(nIndex % 8)];
      }
      isEmpty := false;
    }

    method Contains(key: Key) returns (r: bool)
      requires Valid()
      ensures r == Answers(e, F(), key)
    {
      NotFullHasData(F());
      hide Ok, Index, IsSet;
      if isFull {
        return true;
      }
      if isEmpty {
        return false;
      }
      for i := 0 to e.nHashFuncs
        invariant HasBits(e, vData[..], key, i)
      {
        var nIndex := e.hash(i, key) % (8 * vData.Length);
        IndexIs(e, vData[..], i, key);
        SetIs(vData[..], nIndex);
        if vData[nIndex / 8] & Bit(nIndex % 8) == 0 {
          return false;
        }
      }
      r := true;
    }

    /** Empties the filter. One without bytes is no longer marked full, and so cannot be used. */
    method Clear()
      modifies this, vData
      ensures F() == Cleared(old(F()))
      ensures Valid() <==> vData.Length > 0
    {
      forall i | 0 <= i < vData.Length {
        vData[i] := 0;
      }
      isFull, isEmpty := false, true;
      assert vData[..] == Cleared(old(F())).data;
    }

    /** Finds out whether the filter is full or empty. */
    method UpdateEmptyFull()
      modifies this
      ensures Valid() && F() == Marked(old(F()))
    {
      var full, empty := true, true;
      for i := 0 to vData.Length
        invariant full <==> forall j :: 0 <= j < i ==> vData[j] == 0xff
        invariant empty <==> forall j :: 0 <= j < i ==> vData[j] == 0
      {
        full := full && vData[i] == 0xff;
        empty := empty && vData[i] == 0;
      }
      isFull, isEmpty := full, empty;
    }

    /** Whether the filter has a data element of a script. */
    method ContainsAny(script: Script) returns (r: bool)
      requires Valid() && !isFull && !isEmpty
      ensures vData.Length > 0 && r == AnyIn(e, vData[..], script)
    {
      NotFullHasData(F());
      hide Ok, Has;
      for i := 0 to |script|
        invariant forall j :: 0 <= j < i && script[j] != [] ==> !Has(e, vData[..], script[j])
      {
        if script[i] != [] {
          var contained := Contains(script[i]);
          if contained {
            return true;
          }
        }
      }
      r := false;
    }

    method IsRelevantAndUpdate(tx: Tx) returns (found: bool)
      requires Valid()
      modifies this`isEmpty, vData
      ensures Valid() && (F(), found) == Matched(e, old(F()), tx)
    {
      MatchedKeepsOk(e, F(), tx);
      NotFullHasData(F());
      if isFull {
        return true;
      }
      if isEmpty {
        return false;
      }
      MatchedIs(e, F(), tx);
      hide *;
      ghost var data := vData[..];
      HasIs(e, F(), tx.hash);
      found := Contains(tx.hash);
      found := MatchOutputs(tx, found);
      if found {
        return;
      }
      SameWithoutMatch(e, data, tx, |tx.vout|);
      found := MatchInputs(tx.vin);
    }

    /** Looks for inputs that match. */
    method MatchInputs(vin: seq<TxIn>) returns (found: bool)
      requires Valid() && !isFull && !isEmpty
      ensures vData.Length > 0 && (found <==> exists i :: 0 <= i < |vin| && InputMatches(e, vData[..], vin[i]))
    {
      NotFullHasData(F());
      hide Ok, Has, AnyIn, InputMatches;
      for i := 0 to |vin|
        invariant forall j :: 0 <= j < i ==> !InputMatches(e, vData[..], vin[j])
      {
        InputMatchesIs(e, vData[..], vin[i]);
        found := Contains(vin[i].prevout);
        if !found {
          found := ContainsAny(vin[i].script);
        }
        if found {
          return;
        }
      }
      found := false;
    }

    /** Looks for outputs that match, and adds them to the filter. */
    method MatchOutputs(tx: Tx, before: bool) returns (found: bool)
      requires Valid() && !isFull && !isEmpty && vData.Length > 0
      modifies this`isEmpty, vData
      ensures Valid() && !isFull && !isEmpty && vData[..] == AfterOutputs(e, old(vData[..]), tx, |tx.vout|)
      ensures found <==> before || exists i: nat :: i < |tx.vout| && OutputMatches(e, old(vData[..]), tx, i)
    {
      hide Has, AnyIn, With;
      found := before;
      ghost var data := vData[..];
      for i := 0 to |tx.vout|
        invariant !isFull && !isEmpty && vData[..] == AfterOutputs(e, data, tx, i)
        invariant found <==> before || exists j: nat :: j < i && OutputMatches(e, data, tx, j)
      {
        var contained := ContainsAny(tx.vout[i].script);
        assert OutputMatches(e, data, tx, i) == contained;
        if contained {
          found := true;
          if Updates(e, tx.vout[i]) {
            Insert(e.outpoint(tx.hash, i));
          }
        }
      }
    }
  }

  lemma NotFullHasData(f: Filter)
    requires Ok(f)
    ensures !f.isFull ==> f.data != []
  {
  }

  lemma IndexIs(e: Env, data: Data, i: nat, key: Key)
    requires data != []
    ensures Index(e, data, i, key) == e.hash(i, key) % (8 * |data|)
  {
  }

  lemma WithBitIs(data: Data, n: nat)
    requires n / 8 < |data|
    ensures WithBit(data, n) == data[n / 8 := data[n / 8] | Bit(n % 8)]
  {
  }

  lemma SetIs(data: Data, n: nat)
    requires n / 8 < |data|
    ensures IsSet(data, n) <==> data[n / 8] & Bit(n % 8) != 0
  {
  }

  lemma HasIs(e: Env, f: Filter, key: Key)
    requires Ok(f) && !f.isFull && !f.isEmpty
    ensures Answers(e, f, key) == Has(e, f.data, key)
  {
  }

  /** Matching, when neither shortcut is taken. */
  lemma MatchedIs(e: Env, f: Filter, tx: Tx)
    requires Ok(f) && !f.isFull && !f.isEmpty
    ensures f.data != [] && Matched(e, f, tx).0 == f.(data := AfterOutputs(e, f.data, tx, |tx.vout|))
    ensures Matched(e, f, tx).1 <==>
      || Has(e, f.data, tx.hash)
      || (exists i: nat :: i < |tx.vout| && OutputMatches(e, f.data, tx, i))
      || (exists i :: 0 <= i < |tx.vin| && InputMatches(e, f.data, tx.vin[i]))
  {
    hide Has, OutputMatches, InputMatches;
  }

  lemma InputMatchesIs(e: Env, data: Data, i: TxIn)
    requires data != []
    ensures InputMatches(e, data, i) <==> Has(e, data, i.prevout) || AnyIn(e, data, i.script)
  {
  }

  lemma {:induction false} SameWithoutMatch(e: Env, data: Data, tx: Tx, n: nat)
    requires data != [] && n <= |tx.vout|
    requires forall i: nat :: i < |tx.vout| ==> !OutputMatches(e, data, tx, i)
    ensures AfterOutputs(e, data, tx, n) == data
  {
    hide AnyIn, With;
    if n > 0 { SameWithoutMatch(e, data, tx, n - 1); assert !OutputMatches(e, data, tx, n - 1); }
  }
}
