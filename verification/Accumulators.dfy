/**
 * Accumulator checkpoints: every ten blocks the mints of a window of older blocks are added to the accumulators, and
 * 32-bit checksums of the eight accumulator values, packed into one number, are committed to in the block.
 */
module Accumulators {
  import opened Radix
  import opened Wrappers

  const DENOMS: nat := 8
  const RANGE: nat := 0x1_0000_0000

  /** A minted coin, of denomination 0 .. 7; any other number stands for the error denomination. */
  datatype Coin = Coin(denom: nat, value: nat)

  /** A block's checkpoint, and its mints, without those from invalid outpoints if that is asked for. There are none
      when the block cannot be read or a mint in it is malformed. */
  datatype Block = Block(checkpoint: nat, mints: bool -> Option<seq<Coin>>)

  /** The consensus parameters, the initial accumulator values, arbitrary increment and checksum functions, and the
      hard-coded checkpoints: for a height, the height and the values to start from. */
  datatype Env = Env(startHeight: nat, v2Start: nat, recalculate: nat, lastGood: nat, initial: seq<nat>,
                     increment: (nat, nat) -> nat, checksum: nat -> nat, hard: nat -> Option<(nat, seq<nat>)>)

  ghost predicate EnvOk(e: Env)
  {
    && |e.initial| == DENOMS && e.v2Start >= 20 && 20 <= e.lastGood < e.recalculate
    && (forall v :: e.checksum(v) < RANGE)
    && (forall h :: e.hard(h).Some? ==> 20 <= e.hard(h).value.0 < h && |e.hard(h).value.1| == DENOMS)
  }

  // ----- packing checksums

  function Checksums(e: Env, values: seq<nat>): seq<nat>
  {
    seq<nat>(|values|, i requires 0 <= i < |values| => e.checksum(values[i]))
  }

  function Checkpoint(e: Env, values: seq<nat>): nat
  {
    Value(Checksums(e, values), RANGE)
  }

  function ParseChecksum(checkpoint: nat, pos: nat): nat
    requires pos < DENOMS
  {
    PowPositive(RANGE, DENOMS - 1 - pos);
    checkpoint / Pow(RANGE, DENOMS - 1 - pos) % RANGE
  }

  lemma {:induction false} DigitOfValue(digits: seq<nat>, base: nat, i: nat)
    requires base > 0 && IsDigits(digits, base) && i < |digits|
    ensures Pow(base, |digits| - 1 - i) > 0
    ensures Value(digits, base) / Pow(base, |digits| - 1 - i) % base == digits[i]
  {
    hide Pow, Value;
    var n := |digits| - 1;
    var most, d := digits[..n], digits[n];
    assert digits == most + [d];
    ValueAppend(most, d, base);
    PowPositive(base, n - i);
    if i == n {
      PowZero(base);
      DivModOf(Value(most, base), d, base);
    } else {
      DigitOfValue(most, base, i);
      NextPow(base, n - 1 - i);
      DivDiv(Value(most, base), d, base, Pow(base, n - 1 - i));
    }
  }

  lemma PowZero(base: nat)
    ensures Pow(base, 0) == 1
  {
  }

  lemma NextPow(base: nat, k: nat)
    ensures Pow(base, k + 1) == base * Pow(base, k)
  {
  }

  lemma DivDiv(v: nat, d: nat, base: nat, p: nat)
    requires p > 0 && d < base
    ensures base * p > 0 && (v * base + d) / (base * p) == v / p
  {
    var q, r := v / p, v % p;
    assert v == q * p + r;
    MulMonotone(r + 1, p, base, base);
    assert v * base + d == q * (base * p) + (r * base + d) by { assert q * p * base == q * (base * p); }
    DivModOf(q, r * base + d, base * p);
  }

  /** Each checksum can be read back from the checkpoint. */
  lemma ParseOfCheckpoint(e: Env, values: seq<nat>, i: nat)
    requires EnvOk(e) && |values| == DENOMS && i < DENOMS
    ensures ParseChecksum(Checkpoint(e, values), i) == e.checksum(values[i])
  {
    DigitOfValue(Checksums(e, values), RANGE, i);
    hide Pow, Value;
  }

  /** The first denomination's checksum is the most significant one: each takes 32 bits. */
  lemma CheckpointDigits(e: Env, values: seq<nat>, i: nat)
    requires EnvOk(e) && |values| == DENOMS && i < DENOMS
    ensures Pow(2, 32 * (7 - i)) > 0
    ensures Checkpoint(e, values) / Pow(2, 32 * (7 - i)) % 0x1_0000_0000 == e.checksum(values[i])
  {
    ParseOfCheckpoint(e, values, i);
    RangeIs();
    hide Pow, Checkpoint;
    PowPow(2, 32, 7 - i);
    PowPositive(2, 32 * (7 - i));
  }

  /** Eight checksums fit into 256 bits. */
  lemma CheckpointFits(e: Env, values: seq<nat>)
    requires EnvOk(e) && |values| == DENOMS
    ensures Checkpoint(e, values) < Pow(2, 256)
  {
    hide Pow, Value;
    ValueBound(Checksums(e, values), RANGE);
    RangeIs();
    PowPow(2, 32, 8);
  }

  lemma RangeIs()
    ensures Pow(2, 32) == RANGE
  {
    PowPow(2, 8, 4);
    assert Pow(2, 8) == 256 && Pow(256, 4) == RANGE;
  }

  // ----- accumulating

  function Increment(e: Env, v: seq<nat>, c: Coin): (r: seq<nat>)
    ensures |r| == |v|
  {
    if c.denom < |v| then v[c.denom := e.increment(v[c.denom], c.value)] else v
  }

  function Fold(e: Env, v: seq<nat>, coins: seq<Coin>): (r: seq<nat>)
    ensures |r| == |v|
  {
    if coins == [] then v else Increment(e, Fold(e, v, coins[..|coins| - 1]), coins[|coins| - 1])
  }

  lemma {:induction false} FoldAppend(e: Env, v: seq<nat>, a: seq<Coin>, b: seq<Coin>)
    ensures Fold(e, v, a + b) == Fold(e, Fold(e, v, a), b)
  {
    if b == [] {
      assert a + b == a;
    } else {
      FoldAppend(e, v, a, b[..|b| - 1]);
      assert (a + b)[..|a + b| - 1] == a + b[..|b| - 1];
    }
  }

  /** The values of the coins of one denomination, in order. */
  function OfDenom(coins: seq<Coin>, d: nat): seq<nat>
  {
    if coins == [] then []
    else
      var last := coins[|coins| - 1];
      OfDenom(coins[..|coins| - 1], d) + if last.denom == d then [last.value] else []
  }

  /** An accumulator's value after the coins of its denomination. */
  function Accumulated(e: Env, x: nat, values: seq<nat>): nat
  {
    if values == [] then x else e.increment(Accumulated(e, x, values[..|values| - 1]), values[|values| - 1])
  }

  /** Each accumulator takes the coins of its own denomination, one by one and in order, and no others. */
  lemma {:induction false} FoldAt(e: Env, v: seq<nat>, coins: seq<Coin>, d: nat)
    requires d < |v|
    ensures Fold(e, v, coins)[d] == Accumulated(e, v[d], OfDenom(coins, d))
  {
    if coins != [] {
      var before := OfDenom(coins[..|coins| - 1], d);
      FoldAt(e, v, coins[..|coins| - 1], d);
      var last := coins[|coins| - 1];
      if last.denom == d { assert (before + [last.value])[..|before|] == before; } else { assert before + [] == before; }
    }
  }

  predicate AllKnown(coins: seq<Coin>)
  {
    forall i :: 0 <= i < |coins| ==> coins[i].denom < DENOMS
  }

  /** The mints of blocks `lo` .. `hi` - 1, from the start of the zerocoin protocol on. */
  function Mints(e: Env, chain: seq<Block>, lo: nat, hi: nat, filter: bool): Option<seq<Coin>>
    requires lo <= hi <= |chain|
  {
    if lo == hi then Some([])
    else
      match Mints(e, chain, lo, hi - 1, filter)
      case None => None
      case Some(m) =>
        if hi - 1 < e.startHeight then Some(m)
        else
          match chain[hi - 1].mints(filter)
          case None => None
          case Some(l) => if AllKnown(l) then Some(m + l) else None
  }

  lemma {:induction false} MintsSplit(e: Env, chain: seq<Block>, lo: nat, mid: nat, hi: nat, filter: bool)
    requires lo <= mid <= hi <= |chain|
    ensures Mints(e, chain, lo, hi, filter) ==
      match Mints(e, chain, lo, mid, filter)
      case None => None
      case Some(a) => match Mints(e, chain, mid, hi, filter) case None => None case Some(b) => Some(a + b)
  {
    if mid == hi {
      match Mints(e, chain, lo, mid, filter)
      case None =>
      case Some(a) => assert a + [] == a;
    } else {
      MintsSplit(e, chain, lo, mid, hi - 1, filter);
      match Mints(e, chain, lo, mid, filter)
      case None =>
      case Some(a) =>
        match Mints(e, chain, mid, hi - 1, filter)
        case None =>
        case Some(b) =>
          match chain[hi - 1].mints(filter)
          case None =>
          case Some(l) => assert (a + b) + l == a + (b + l);
    }
  }

  /** The mints of one block: none before the zerocoin protocol starts; failure if the block's cannot be had. */
  lemma MintsOfBlock(e: Env, chain: seq<Block>, h: nat, filter: bool)
    requires h < |chain|
    ensures Mints(e, chain, h, h + 1, filter) ==
      if h < e.startHeight then Some([])
      else match chain[h].mints(filter)
        case None => None
        case Some(l) => if AllKnown(l) then Some(l) else None
  {
    assert Mints(e, chain, h, h, filter) == Some([]);
    if h >= e.startHeight && chain[h].mints(filter).Some? { assert [] + chain[h].mints(filter).value == chain[h].mints(filter).value; }
  }

  /** Only the blocks in the range matter. */
  lemma {:induction false} MintsOfPrefix(e: Env, chain: seq<Block>, more: seq<Block>, lo: nat, hi: nat, filter: bool)
    requires lo <= hi <= |chain| && chain <= more
    ensures Mints(e, more, lo, hi, filter) == Mints(e, chain, lo, hi, filter)
  {
    if lo < hi { MintsOfPrefix(e, chain, more, lo, hi - 1, filter); }
  }

  // ----- what the node computes

  /** The active chain, by height, and the database of accumulator values by checksum. */
  datatype State = State(chain: seq<Block>, db: map<nat, nat>)

  function Loaded(db: map<nat, nat>, checkpoint: nat): Option<seq<nat>>
  {
    if forall i: nat :: i < DENOMS ==> ParseChecksum(checkpoint, i) in db
    then Some(seq(DENOMS, i requires 0 <= i < DENOMS => db[ParseChecksum(checkpoint, i)]))
    else None
  }

  /** The checksums at a height that erasing removes: all, unless the whole checkpoint equals a checksum to be kept. */
  function ErasedAt(checkpoint: nat, keep: seq<nat>): set<nat>
  {
    if checkpoint in keep then {} else FirstChecksums(checkpoint, DENOMS)
  }

  function FirstChecksums(checkpoint: nat, n: nat): set<nat>
    requires n <= DENOMS
  {
    if n == 0 then {} else FirstChecksums(checkpoint, n - 1) + {ParseChecksum(checkpoint, n - 1)}
  }

  function Parsed(checkpoint: nat): seq<nat>
  {
    seq(DENOMS, i requires 0 <= i < DENOMS => ParseChecksum(checkpoint, i))
  }

  /** The database after erasing the checkpoints of blocks `lo` .. `hi` - 1. */
  function Erased(s: State, keep: seq<nat>, lo: nat, hi: nat): map<nat, nat>
    requires lo <= hi <= |s.chain|
  {
    if lo == hi then s.db else Erased(s, keep, lo, hi - 1) - ErasedAt(s.chain[hi - 1].checkpoint, keep)
  }

  function Min(a: int, b: int): int
  {
    if a <= b then a else b
  }

  /** Where accumulating for height `h` starts, and from which values. The database may lose checkpoints. */
  function Initialized(e: Env, s: State, h: nat): (Option<(nat, seq<nat>)>, map<nat, nat>)
    requires EnvOk(e) && 0 < h <= |s.chain|
  {
    if h < e.startHeight then (None, s.db)
    else if h == e.recalculate then
      match Loaded(s.db, s.chain[e.lastGood].checkpoint)
      case None => (None, s.db)
      case Some(v) =>
        if |s.chain| - 1 < e.lastGood + 1 then (None, s.db)
        else
          (Some((e.lastGood, v)),
           Erased(s, Parsed(s.chain[e.lastGood].checkpoint), e.lastGood + 1, Min(|s.chain| - 1, h) + 1))
    else if e.v2Start <= h <= e.v2Start + 20 then (e.hard(h), s.db)
    else
      var previous := s.chain[h - 1].checkpoint;
      if previous == 0 then (Some((h, e.initial)), s.db)
      else
        match Loaded(s.db, previous)
        case None => (None, s.db)
        case Some(v) => (Some((h, v)), s.db)
  }

  /** The checkpoint for a height that is a multiple of ten, with the accumulator values it commits to. */
  function Calculated(e: Env, s: State, h: nat): (r: Option<(nat, seq<nat>)>)
    requires EnvOk(e) && e.v2Start <= h <= |s.chain|
  {
    match Initialized(e, s, h).0
    case None => None
    case Some((from, v)) =>
      var lo, hi := from - 20, h - 10;
      if hi <= lo then Some((s.chain[h - 1].checkpoint, v))
      else
        match Mints(e, s.chain, lo, hi, h >= e.recalculate)
        case None => None
        case Some(coins) =>
          if coins == [] then Some((s.chain[h - 1].checkpoint, v))
          else Some((Checkpoint(e, Fold(e, v, coins)), Fold(e, v, coins)))
  }

  /** The database after the checksums of the first `n` values are written to it. */
  function Written(e: Env, db: map<nat, nat>, values: seq<nat>, n: nat): map<nat, nat>
    requires n <= |values|
  {
    if n == 0 then db else Written(e, db, values, n - 1)[e.checksum(values[n - 1]) := values[n - 1]]
  }

  /** Whether a block may come next: the accumulator values it leaves if so, and the database. */
  function Validated(e: Env, s: State, block: Block): (Option<seq<nat>>, map<nat, nat>)
    requires EnvOk(e)
  {
    var h := |s.chain|;
    if h < e.v2Start then (Some(e.initial), s.db)
    else if h % 10 != 0 then (if block.checkpoint == s.chain[h - 1].checkpoint then Some(e.initial) else None, s.db)
    else
      match Calculated(e, s, h)
      case None => (None, Initialized(e, s, h).1)
      case Some((checkpoint, v)) => (if block.checkpoint == checkpoint then Some(v) else None, Initialized(e, s, h).1)
  }

  /** The state after connecting a block, if that succeeds. */
  function Connected(e: Env, s: State, block: Block): Option<State>
    requires EnvOk(e)
  {
    match Validated(e, s, block)
    case (None, _) => None
    case (Some(v), db) =>
      Some(State(s.chain + [block], if |s.chain| - 1 >= e.v2Start then Written(e, db, v, |v|) else db))
  }

  // ----- runs

  function ConnectedAll(e: Env, s: State, blocks: seq<Block>): (r: Option<State>)
    requires EnvOk(e)
    ensures r.Some? ==> r.value.chain == s.chain + blocks
  {
    if blocks == [] then assert s.chain + [] == s.chain; Some(s)
    else
      match ConnectedAll(e, s, blocks[..|blocks| - 1])
      case None => None
      case Some(t) =>
        assert blocks == blocks[..|blocks| - 1] + [blocks[|blocks| - 1]];
        Connected(e, t, blocks[|blocks| - 1])
  }

  /** A checkpoint of zero stands for the initial values. */
  ghost predicate Commits(e: Env, checkpoint: nat, v: seq<nat>)
  {
    |v| == DENOMS && if checkpoint == 0 then v == e.initial else checkpoint == Checkpoint(e, v)
  }

  ghost predicate Databased(e: Env, db: map<nat, nat>, v: seq<nat>)
  {
    forall i :: 0 <= i < |v| ==> e.checksum(v[i]) in db && db[e.checksum(v[i])] == v[i]
  }

  ghost predicate NoCollision(e: Env, a: seq<nat>, b: seq<nat>)
  {
    forall i, j :: 0 <= i < |a| && 0 <= j < |b| && e.checksum(a[i]) == e.checksum(b[j]) ==> a[i] == b[j]
  }

  /** Different values have different checksums, here and initially, and the checkpoint is not the null one. */
  ghost predicate NoAccident(e: Env, v: seq<nat>)
  {
    NoCollision(e, v, v) && NoCollision(e, e.initial, v) && Checkpoint(e, v) != 0
  }

  /** The values after adding the mints of the blocks from ten below `h0` to eleven below `h0` + 10k. */
  function ValuesAt(e: Env, chain: seq<Block>, h0: nat, v0: seq<nat>, k: nat): Option<seq<nat>>
    requires 10 <= h0 && h0 + 10 * k - 10 <= |chain|
  {
    match Mints(e, chain, h0 - 10, h0 + 10 * k - 10, h0 >= e.recalculate)
    case None => None
    case Some(coins) => Some(Fold(e, v0, coins))
  }

  /** The tip commits to the values that are due at its height, and these are in the database. */
  ghost predicate Follows(e: Env, s: State, h0: nat, v0: seq<nat>)
    requires 10 <= h0 < |s.chain|
  {
    var h := |s.chain| - 1;
    var v := ValuesAt(e, s.chain, h0, v0, (h - h0) / 10);
    && v.Some? && Commits(e, s.chain[h].checkpoint, v.value)
    && (s.chain[h].checkpoint != 0 ==> Databased(e, s.db, v.value))
  }

  lemma {:induction false} WrittenKeeps(e: Env, db: map<nat, nat>, values: seq<nat>, n: nat, v: seq<nat>)
    requires n <= |values| && Databased(e, db, v) && NoCollision(e, values, v)
    ensures Databased(e, Written(e, db, values, n), v)
  {
    if n > 0 { WrittenKeeps(e, db, values, n - 1, v); }
  }

  lemma {:induction false} WrittenHas(e: Env, db: map<nat, nat>, v: seq<nat>, n: nat)
    requires n <= |v| && NoCollision(e, v, v)
    ensures Databased(e, Written(e, db, v, n), v[..n])
  {
    if n > 0 {
      WrittenHas(e, db, v, n - 1);
      assert forall i :: 0 <= i < n - 1 ==> v[..n][i] == v[..n - 1][i];
    }
  }

  lemma LoadedIs(e: Env, db: map<nat, nat>, v: seq<nat>)
    requires EnvOk(e) && |v| == DENOMS && Databased(e, db, v)
    ensures Loaded(db, Checkpoint(e, v)) == Some(v)
  {
    hide Checkpoint, ParseChecksum;
    forall i: nat | i < DENOMS ensures ParseChecksum(Checkpoint(e, v), i) == e.checksum(v[i]) { ParseOfCheckpoint(e, v, i); }
    assert Loaded(db, Checkpoint(e, v)).value == v;
  }

  lemma ValuesOfPrefix(e: Env, chain: seq<Block>, more: seq<Block>, h0: nat, v0: seq<nat>, k: nat)
    requires 10 <= h0 && h0 + 10 * k - 10 <= |chain| && chain <= more
    ensures ValuesAt(e, more, h0, v0, k) == ValuesAt(e, chain, h0, v0, k)
  {
    MintsOfPrefix(e, chain, more, h0 - 10, h0 + 10 * k - 10, h0 >= e.recalculate);
  }

  /** Ten blocks on, the values have grown by the mints of one more window of ten blocks. */
  lemma NextWindow(e: Env, chain: seq<Block>, h0: nat, v0: seq<nat>, k: nat)
    requires 10 <= h0 && h0 + 10 * k <= |chain| && ValuesAt(e, chain, h0, v0, k).Some?
    ensures var coins := Mints(e, chain, h0 + 10 * k - 10, h0 + 10 * k, h0 >= e.recalculate);
      ValuesAt(e, chain, h0, v0, k + 1)
        == if coins.None? then None else Some(Fold(e, ValuesAt(e, chain, h0, v0, k).value, coins.value))
  {
    hide Mints, Fold;
    MintsSplit(e, chain, h0 - 10, h0 + 10 * k - 10, h0 + 10 * k, h0 >= e.recalculate);
    var a := Mints(e, chain, h0 - 10, h0 + 10 * k - 10, h0 >= e.recalculate).value;
    var b := Mints(e, chain, h0 + 10 * k - 10, h0 + 10 * k, h0 >= e.recalculate);
    if b.Some? { FoldAppend(e, v0, a, b.value); }
  }

  /** In the steady state the values to start from are those the previous block commits to. */
  lemma SteadyStart(e: Env, s: State, h: nat, v: seq<nat>)
    requires EnvOk(e) && e.v2Start + 20 < h == |s.chain| && h != e.recalculate
    requires Commits(e, s.chain[h - 1].checkpoint, v) && (s.chain[h - 1].checkpoint != 0 ==> Databased(e, s.db, v))
    ensures Initialized(e, s, h) == (if h < e.startHeight then None else Some((h, v)), s.db)
  {
    hide Checkpoint, Loaded;
    if s.chain[h - 1].checkpoint != 0 { LoadedIs(e, s.db, v); }
  }

  /** In the first twenty blocks of the second version the values to start from are hard-coded. */
  lemma HardStart(e: Env, s: State, h: nat)
    requires EnvOk(e) && 0 < h <= |s.chain| && e.v2Start <= h <= e.v2Start + 20 && e.startHeight <= h != e.recalculate
    ensures Initialized(e, s, h) == (e.hard(h), s.db)
  {
  }

  /** The new checkpoint commits to the values to start from plus the mints from twenty blocks before where they are
      from up to eleven blocks before the height; without any mints it stays as it was. */
  lemma CalculatedFrom(e: Env, s: State, h: nat, from: nat, v: seq<nat>)
    requires EnvOk(e) && e.v2Start <= h <= |s.chain| && Initialized(e, s, h).0 == Some((from, v)) && 20 <= from < h + 10
    ensures match Mints(e, s.chain, from - 20, h - 10, h >= e.recalculate)
      case None => Calculated(e, s, h) == None
      case Some(coins) =>
        Calculated(e, s, h) ==
          Some((if coins == [] then s.chain[h - 1].checkpoint else Checkpoint(e, Fold(e, v, coins)), Fold(e, v, coins)))
  {
    hide Mints, Checkpoint, Initialized;
    FoldNothing(e, v);
  }

  /** Exactly which blocks are accepted: below the second version all, then those with the checkpoint that is due. */
  lemma AcceptedIff(e: Env, s: State, block: Block)
    requires EnvOk(e) && s.chain != []
    ensures var h := |s.chain|;
      Connected(e, s, block).Some? <==>
        || h < e.v2Start
        || (h % 10 != 0 && block.checkpoint == s.chain[h - 1].checkpoint)
        || (h % 10 == 0 && Calculated(e, s, h).Some? && block.checkpoint == Calculated(e, s, h).value.0)
  {
    hide Calculated, Initialized;
  }

  lemma ConnectPlain(e: Env, s: State, block: Block, h0: nat, v0: seq<nat>)
    requires EnvOk(e) && e.v2Start + 10 < h0 < |s.chain| && h0 % 10 == 0 && |v0| == DENOMS
    requires Follows(e, s, h0, v0) && |s.chain| % 10 != 0 && Connected(e, s, block).Some?
    requires NoAccident(e, ValuesAt(e, s.chain, h0, v0, (|s.chain| - 1 - h0) / 10).value)
    ensures Follows(e, Connected(e, s, block).value, h0, v0)
  {
    hide Mints, Fold, Checkpoint, Written, Calculated, Initialized;
    var h := |s.chain|;
    var k := (h - 1 - h0) / 10;
    assert (h - h0) / 10 == k;
    var t := Connected(e, s, block).value;
    ValuesOfPrefix(e, s.chain, t.chain, h0, v0, k);
    hide ValuesAt;
    var v := ValuesAt(e, s.chain, h0, v0, k).value;
    if s.chain[h - 1].checkpoint != 0 { WrittenKeeps(e, s.db, e.initial, DENOMS, v); }
  }

  lemma ConnectTenth(e: Env, s: State, block: Block, h0: nat, v0: seq<nat>)
    requires EnvOk(e) && e.v2Start + 10 < h0 < |s.chain| && h0 % 10 == 0 && |v0| == DENOMS
    requires Follows(e, s, h0, v0) && |s.chain| % 10 == 0 && Connected(e, s, block).Some?
    requires |s.chain| != e.recalculate && (|s.chain| >= e.recalculate <==> h0 >= e.recalculate)
    requires var w := ValuesAt(e, s.chain, h0, v0, (|s.chain| - h0) / 10); w.Some? ==> NoAccident(e, w.value)
    ensures Follows(e, Connected(e, s, block).value, h0, v0)
  {
    hide Mints, Fold, Checkpoint, Written, Initialized;
    var h := |s.chain|;
    var k := (h - 1 - h0) / 10;
    assert h == h0 + 10 * k + 10;
    var v := ValuesAt(e, s.chain, h0, v0, k).value;
    NextWindow(e, s.chain, h0, v0, k);
    SteadyStart(e, s, h, v);
    var t := Connected(e, s, block).value;
    ValuesOfPrefix(e, s.chain, t.chain, h0, v0, k + 1);
    hide ValuesAt;
    var coins := Mints(e, s.chain, h - 20, h - 10, h0 >= e.recalculate);
    var w := ValuesAt(e, s.chain, h0, v0, k + 1).value;
    FoldNothing(e, v);
    WrittenHas(e, s.db, w, DENOMS);
    assert w[..DENOMS] == w;
  }

  lemma FoldNothing(e: Env, v: seq<nat>)
    ensures Fold(e, v, []) == v
  {
  }

  /**
   * Over any run of connected blocks without a recalculation, from a tip at height `h0` that commits to `v0`: the tip
   * commits to `v0` plus every mint of the blocks from ten below `h0` on, each once, as far as checkpoints have come.
   */
  lemma {:induction false} RunCommits(e: Env, s: State, blocks: seq<Block>, h0: nat, v0: seq<nat>)
    requires EnvOk(e) && e.v2Start + 10 < h0 && |s.chain| == h0 + 1 && h0 % 10 == 0
    requires Commits(e, s.chain[h0].checkpoint, v0) && (s.chain[h0].checkpoint != 0 ==> Databased(e, s.db, v0))
    requires !(h0 < e.recalculate <= h0 + |blocks|)
    requires forall k: nat :: h0 + 10 * k <= h0 + |blocks| && ValuesAt(e, s.chain + blocks, h0, v0, k).Some? ==>
      NoAccident(e, ValuesAt(e, s.chain + blocks, h0, v0, k).value)
    requires ConnectedAll(e, s, blocks).Some?
    ensures Follows(e, ConnectedAll(e, s, blocks).value, h0, v0)
  {
    hide Mints, Fold, Checkpoint, Connected, Databased, NoAccident, EnvOk;
    if blocks == [] {
      StartFollows(e, s, h0, v0);
    } else {
      var n := |blocks| - 1;
      var rest, last := blocks[..n], blocks[n];
      assert blocks == rest + [last];
      assert s.chain + blocks == (s.chain + rest) + [last];
      var all, some := s.chain + blocks, s.chain + rest;
      forall k: nat | h0 + 10 * k <= h0 + n && ValuesAt(e, some, h0, v0, k).Some?
        ensures NoAccident(e, ValuesAt(e, some, h0, v0, k).value)
      {
        ValuesOfPrefix(e, some, all, h0, v0, k);
      }
      RunCommits(e, s, rest, h0, v0);
      var t := ConnectedAll(e, s, rest).value;
      assert Connected(e, t, last).Some?;
      assert |t.chain| == h0 + 1 + n;
      var k := if |t.chain| % 10 == 0 then (|t.chain| - h0) / 10 else (|t.chain| - 1 - h0) / 10;
      ValuesOfPrefix(e, some, all, h0, v0, k);
      hide ValuesAt;
      if |t.chain| % 10 == 0 { ConnectTenth(e, t, last, h0, v0); } else { ConnectPlain(e, t, last, h0, v0); }
    }
  }

  lemma StartFollows(e: Env, s: State, h0: nat, v0: seq<nat>)
    requires 10 <= h0 && |s.chain| == h0 + 1
    requires Commits(e, s.chain[h0].checkpoint, v0) && (s.chain[h0].checkpoint != 0 ==> Databased(e, s.db, v0))
    ensures Follows(e, s, h0, v0)
  {
    assert ValuesAt(e, s.chain, h0, v0, 0) == Some(Fold(e, v0, []));
  }

  // ----- what a refused block leaves behind

  /** A block that is refused leaves the database alone, except when accumulators are recalculated. */
  lemma RefusedElsewhere(e: Env, s: State, block: Block)
    requires EnvOk(e) && (|s.chain| != e.recalculate || |s.chain| % 10 != 0 || |s.chain| < e.v2Start)
    ensures Validated(e, s, block).1 == s.db
  {
  }

  lemma {:induction false} ErasedHas(s: State, keep: seq<nat>, lo: nat, hi: nat, c: nat)
    requires lo <= hi <= |s.chain|
    ensures c in Erased(s, keep, lo, hi) <==>
      c in s.db && forall x :: lo <= x < hi ==> c !in ErasedAt(s.chain[x].checkpoint, keep)
    decreases hi - lo
  {
    hide ErasedAt;
    if lo < hi { ErasedHas(s, keep, lo, hi - 1, c); }
  }

  /** Erasing a checkpoint erases a checksum of the good one too. */
  ghost predicate TakesFrom(checkpoint: nat, good: nat)
  {
    exists i: nat :: i < DENOMS && ParseChecksum(good, i) in ErasedAt(checkpoint, Parsed(good))
  }

  /** Below the start of the second protocol version every block is accepted, and nothing is erased or written. */
  lemma {:induction false} NothingStoredBelowV2(e: Env, s: State, blocks: seq<Block>)
    requires EnvOk(e) && |s.chain| + |blocks| <= e.v2Start
    ensures ConnectedAll(e, s, blocks) == Some(State(s.chain + blocks, s.db))
  {
    if blocks == [] {
      assert s.chain + [] == s.chain;
    } else {
      var n := |blocks| - 1;
      NothingStoredBelowV2(e, s, blocks[..n]);
      assert blocks == blocks[..n] + [blocks[n]];
      assert s.chain + blocks == (s.chain + blocks[..n]) + [blocks[n]];
    }
  }

  /** The checkpoints since the last good one are erased, and one of them takes a checksum of the good one with it. */
  ghost predicate LosesGood(e: Env, s: State)
    requires EnvOk(e) && |s.chain| == e.recalculate
  {
    && e.v2Start <= |s.chain| && |s.chain| % 10 == 0
    && exists x :: e.lastGood < x < |s.chain| && TakesFrom(s.chain[x].checkpoint, s.chain[e.lastGood].checkpoint)
  }

  /**
   * Validating a block at the height of a recalculation erases the checkpoints since the last good one, even if the
   * block is refused.
   * Whether the recalculation can then be done again, for another block, depends on whether that took a checksum of
   * the last good checkpoint with it. If it did, no block is accepted at that height any more.
   */
  lemma RefusalAtRecalculation(e: Env, s: State, block: Block, other: Block)
    requires EnvOk(e) && |s.chain| == e.recalculate && Initialized(e, s, |s.chain|).0.Some?
    ensures var t := State(s.chain, Validated(e, s, block).1);
      && (Initialized(e, t, |s.chain|).0.None? <==> LosesGood(e, s))
      && (LosesGood(e, s) ==> Connected(e, t, other).None?)
  {
    hide ErasedAt, ParseChecksum, Mints, Fold, Checkpoint, Erased, Parsed;
    var good, h := s.chain[e.lastGood].checkpoint, |s.chain|;
    var t := State(s.chain, Validated(e, s, block).1);
    if e.v2Start <= h && h % 10 == 0 {
      assert t.db == Erased(s, Parsed(good), e.lastGood + 1, h);
      LoadedIff(s.db, good);
      LoadedIff(t.db, good);
      forall i: nat | i < DENOMS ensures ParseChecksum(good, i) in t.db <==>
        forall x :: e.lastGood < x < h ==> ParseChecksum(good, i) !in ErasedAt(s.chain[x].checkpoint, Parsed(good))
      {
        ErasedHas(s, Parsed(good), e.lastGood + 1, h, ParseChecksum(good, i));
      }
      hide Loaded;
    }
  }

  lemma LoadedIff(db: map<nat, nat>, checkpoint: nat)
    ensures Loaded(db, checkpoint).Some? <==> forall i: nat :: i < DENOMS ==> ParseChecksum(checkpoint, i) in db
  {
  }

  /**
   * That happens in particular whenever the block after the last good one is at no multiple of ten: it has the same
   * checkpoint, and that is spared only if, as a whole, it equals one of its own checksums.
   */
  lemma SameCheckpointIsTaken(good: nat)
    ensures TakesFrom(good, good) <==> good !in Parsed(good)
  {
    hide ParseChecksum, Parsed;
    FirstHas(good, 0, DENOMS);
  }

  lemma {:induction false} FirstHas(checkpoint: nat, i: nat, n: nat)
    requires i < n <= DENOMS
    ensures ParseChecksum(checkpoint, i) in FirstChecksums(checkpoint, n)
  {
    hide ParseChecksum;
    if i < n - 1 { FirstHas(checkpoint, i, n - 1); }
  }

  /**
   * If the block after the last good one is at no multiple of ten, the recalculation cannot be done a second time:
   * no block is accepted once another has been validated. Otherwise validating a block leaves the database alone.
   */
  lemma RecalculationIsLost(e: Env, s: State, block: Block, other: Block)
    requires EnvOk(e) && |s.chain| == e.recalculate && Initialized(e, s, |s.chain|).0.Some?
    requires (e.lastGood + 1) % 10 != 0 && ChangesAtTens(s.chain, e.lastGood)
    requires s.chain[e.lastGood].checkpoint !in Parsed(s.chain[e.lastGood].checkpoint)
    ensures if e.v2Start <= |s.chain| && |s.chain| % 10 == 0
      then Connected(e, State(s.chain, Validated(e, s, block).1), other).None?
      else Validated(e, s, block).1 == s.db
  {
    var good := s.chain[e.lastGood].checkpoint;
    assert s.chain[e.lastGood + 1].checkpoint == good;
    hide Connected, Loaded, ChangesAtTens, TakesFrom;
    SameCheckpointIsTaken(good);
    RefusalAtRecalculation(e, s, block, other);
  }

  // A recalculation at height 40 from the checkpoint at height 20, which all blocks since have.

  const GOOD: nat := RANGE
  const PARAMETERS: Env := Env(0, 20, 40, 20, [0, 0, 0, 0, 0, 0, 0, 0], (v, _) => v, _ => 0, _ => None)
  const PLAIN: Block := Block(GOOD, _ => Some([]))
  const CHAIN: State := State(seq(40, _ => PLAIN), map c | c in Parsed(GOOD) :: 0)

  lemma {:induction false} NoMints(e: Env, chain: seq<Block>, lo: nat, hi: nat, filter: bool)
    requires lo <= hi <= |chain| && forall h :: lo <= h < hi ==> chain[h].mints(filter) == Some([])
    ensures Mints(e, chain, lo, hi, filter) == Some([])
  {
    if lo < hi {
      NoMints(e, chain, lo, hi - 1, filter);
      var none: seq<Coin> := [];
      assert none + none == none;
    }
  }

  lemma GoodIsLoaded()
    ensures Loaded(CHAIN.db, GOOD).Some? && GOOD !in Parsed(GOOD)
  {
    hide Pow;
    LoadedIff(CHAIN.db, GOOD);
    assert forall i: nat :: i < DENOMS ==> Parsed(GOOD)[i] == ParseChecksum(GOOD, i) < RANGE;
  }

  /** A block that is accepted at the height of a recalculation, but no more once another one has been refused. */
  lemma RecalculationMayBeLost()
    ensures var wrong := Block(0, _ => Some([]));
      && EnvOk(PARAMETERS) && |CHAIN.chain| == PARAMETERS.recalculate
      && Connected(PARAMETERS, CHAIN, PLAIN).Some? && Connected(PARAMETERS, CHAIN, wrong).None?
      && Connected(PARAMETERS, State(CHAIN.chain, Validated(PARAMETERS, CHAIN, wrong).1), PLAIN).None?
  {
    GoodIsLoaded();
    NoMints(PARAMETERS, CHAIN.chain, 0, 30, true);
    hide ParseChecksum, Parsed, Loaded, Mints, Erased, ErasedAt;
    assert Initialized(PARAMETERS, CHAIN, 40).0.Some?;
    assert Calculated(PARAMETERS, CHAIN, 40).value.0 == GOOD;
    RecalculationIsLost(PARAMETERS, CHAIN, Block(0, _ => Some([])), PLAIN);
  }

  // ----- finding a checksum

  /** From height `from` on, checkpoints change only at multiples of ten. */
  ghost predicate ChangesAtTens(chain: seq<Block>, from: nat)
  {
    forall h :: from < h < |chain| && h % 10 != 0 ==> chain[h].checkpoint == chain[h - 1].checkpoint
  }

  ghost predicate HasChecksum(chain: seq<Block>, h: nat, checksum: nat, pos: nat)
    requires h < |chain| && pos < DENOMS
  {
    ParseChecksum(chain[h].checkpoint, pos) == checksum
  }

  /** Up to the next multiple of ten every height is looked at, from there on only multiples of ten. */
  predicate IsLookedAt(from: nat, h: nat)
  {
    h % 10 == 0 || h < (from + 9) / 10 * 10
  }

  /** `r` is the first height looked at that has the checksum; zero if none has. */
  ghost predicate IsFirstLookedAt(r: nat, chain: seq<Block>, from: nat, checksum: nat, pos: nat)
    requires pos < DENOMS
  {
    || (from <= r < |chain| && IsLookedAt(from, r) && HasChecksum(chain, r, checksum, pos)
        && forall h :: from <= h < r && IsLookedAt(from, h) ==> !HasChecksum(chain, h, checksum, pos))
    || (r == 0 && forall h :: from <= h < |chain| && IsLookedAt(from, h) ==> !HasChecksum(chain, h, checksum, pos))
  }

  /** `r` is the first height that has the checksum in its checkpoint; zero if none has. */
  ghost predicate IsFirst(r: nat, chain: seq<Block>, from: nat, checksum: nat, pos: nat)
    requires pos < DENOMS
  {
    || (from <= r < |chain| && HasChecksum(chain, r, checksum, pos)
        && forall h :: from <= h < r ==> !HasChecksum(chain, h, checksum, pos))
    || (r == 0 && forall h :: from <= h < |chain| ==> !HasChecksum(chain, h, checksum, pos))
  }

  /** Finds the first height with a checksum, if checkpoints change only at multiples of ten; others are passed over. */
  method GetChecksumHeight(chain: seq<Block>, from: nat, checksum: nat, pos: nat) returns (r: nat)
    requires pos < DENOMS
    ensures IsFirstLookedAt(r, chain, from, checksum, pos)
    ensures ChangesAtTens(chain, from) ==> IsFirst(r, chain, from, checksum, pos)
  {
    hide ParseChecksum, ChangesAtTens, IsFirst;
    if from >= |chain| {
      FirstIfChangesAtTens(0, chain, from, checksum, pos);
      return 0;
    }
    var h := from;
    while h < |chain|
      invariant from <= h && IsLookedAt(from, h)
      invariant forall j :: from <= j < h && j < |chain| && IsLookedAt(from, j) ==> !HasChecksum(chain, j, checksum, pos)
      decreases |chain| - h
    {
      if ParseChecksum(chain[h].checkpoint, pos) == checksum {
        FirstIfChangesAtTens(h, chain, from, checksum, pos);
        return h;
      }
      NextLookedAt(from, h);
      if h % 10 == 0 {
        if h + 10 > |chain| - 1 {
          FirstIfChangesAtTens(0, chain, from, checksum, pos);
          return 0;
        }
        h := h + 10;
      } else {
        h := h + 1;
      }
    }
    r := 0;
    FirstIfChangesAtTens(0, chain, from, checksum, pos);
  }

  lemma NextLookedAt(from: nat, h: nat)
    requires from <= h && IsLookedAt(from, h)
    ensures h % 10 == 0 ==> IsLookedAt(from, h + 10) && forall j :: h < j < h + 10 ==> !IsLookedAt(from, j)
    ensures h % 10 != 0 ==> IsLookedAt(from, h + 1)
  {
  }

  /** Heights that are not looked at have the checkpoint of the multiple of ten before them. */
  lemma FirstIfChangesAtTens(r: nat, chain: seq<Block>, from: nat, checksum: nat, pos: nat)
    requires pos < DENOMS && IsFirstLookedAt(r, chain, from, checksum, pos)
    ensures ChangesAtTens(chain, from) ==> IsFirst(r, chain, from, checksum, pos)
  {
    hide ParseChecksum;
    if ChangesAtTens(chain, from) {
      forall h | from <= h < |chain| && !IsLookedAt(from, h)
        ensures from <= h / 10 * 10 < h && IsLookedAt(from, h / 10 * 10)
        ensures chain[h].checkpoint == chain[h / 10 * 10].checkpoint
      {
        SameSinceTen(chain, from, h, h % 10);
      }
    }
  }

  lemma {:induction false} SameSinceTen(chain: seq<Block>, from: nat, h: nat, n: nat)
    requires ChangesAtTens(chain, from) && n <= h % 10 && from + n <= h < |chain|
    ensures chain[h].checkpoint == chain[h - n].checkpoint
  {
    if n > 0 {
      assert (h - (n - 1)) % 10 != 0;
      SameSinceTen(chain, from, h, n - 1);
    }
  }

  // ----- the code

  class AccumulatorMap {
    const e: Env
    var values: seq<nat>

    constructor (e: Env)
      requires EnvOk(e)
      ensures this.e == e && values == e.initial
    {
      this.e, values := e, e.initial;
    }

    method Reset()
      modifies this
      ensures values == e.initial
    {
      values := e.initial;
    }

    /** Loads the values that the checksums of a checkpoint stand for. */
    method Load(db: map<nat, nat>, checkpoint: nat) returns (ok: bool)
      requires |values| == DENOMS
      modifies this
      ensures |values| == DENOMS && (ok <==> Loaded(db, checkpoint).Some?)
      ensures ok ==> values == Loaded(db, checkpoint).value
    {
      hide ParseChecksum;
      var i := 0;
      while i < DENOMS
        invariant 0 <= i <= DENOMS && |values| == DENOMS
        invariant forall j: nat :: j < i ==> ParseChecksum(checkpoint, j) in db && values[j] == db[ParseChecksum(checkpoint, j)]
      {
        if ParseChecksum(checkpoint, i) !in db {
          return false;
        }
        values := values[i := db[ParseChecksum(checkpoint, i)]];
        i := i + 1;
      }
      ok := true;
    }

    /** A coin counts for its own denomination only. */
    method Accumulate(coin: Coin) returns (ok: bool)
      requires |values| == DENOMS
      modifies this
      ensures values == Increment(e, old(values), coin) && (ok <==> coin.denom < DENOMS)
    {
      if coin.denom >= DENOMS {
        return false;
      }
      values := values[coin.denom := e.increment(values[coin.denom], coin.value)];
      ok := true;
    }

    /** Concatenates the checksums of all values. */
    method GetCheckpoint() returns (checkpoint: nat)
      requires |values| == DENOMS
      ensures checkpoint == Checkpoint(e, values)
    {
      hide Pow, Value;
      ghost var sums := Checksums(e, values);
      checkpoint := 0;
      ValueEmpty(RANGE);
      var i := 0;
      while i < DENOMS
        invariant 0 <= i <= DENOMS && checkpoint == Value(sums[..i], RANGE)
      {
        assert sums[..i + 1] == sums[..i] + [e.checksum(values[i])];
        ValueAppend(sums[..i], e.checksum(values[i]), RANGE);
        checkpoint := checkpoint * RANGE + e.checksum(values[i]);
        i := i + 1;
      }
      assert sums[..i] == sums;
    }
  }

  class Node {
    const e: Env
    var chain: seq<Block>
    var db: map<nat, nat>

    ghost function S(): State
      reads this
    {
      State(chain, db)
    }

    constructor (e: Env, chain: seq<Block>, db: map<nat, nat>)
      ensures this.e == e && S() == State(chain, db)
    {
      this.e, this.chain, this.db := e, chain, db;
    }

    /** Erases the checkpoints of a range of heights, which must be on the chain above the genesis block. */
    method EraseCheckpoints(nStartHeight: nat, nEndHeight: nat) returns (ok: bool)
      requires 0 < nStartHeight <= nEndHeight
      modifies this`db
      ensures ok <==> |chain| - 1 >= nStartHeight
      ensures !ok ==> db == old(db)
      ensures ok ==> db == Erased(old(S()), Parsed(chain[nStartHeight - 1].checkpoint), nStartHeight, Min(|chain| - 1, nEndHeight) + 1)
    {
      hide ParseChecksum;
      if |chain| - 1 < nStartHeight {
        return false;
      }
      var end := Min(|chain| - 1, nEndHeight);
      var keep := Parsed(chain[nStartHeight - 1].checkpoint);
      var h := nStartHeight;
      while h <= end
        invariant nStartHeight <= h <= end + 1
        invariant db == Erased(old(S()), keep, nStartHeight, h)
      {
        var checkpoint := chain[h].checkpoint;
        ghost var was := db;
        for i := 0 to DENOMS
          invariant db == if checkpoint in keep then was else was - FirstChecksums(checkpoint, i)
        {
          if checkpoint !in keep {
            db := db - {ParseChecksum(checkpoint, i)};
          }
        }
        h := h + 1;
      }
      ok := true;
    }

    method InitializeAccumulators(nHeight: nat, m: AccumulatorMap) returns (from: Option<nat>)
      requires EnvOk(e) && 0 < nHeight <= |chain| && m.e == e && |m.values| == DENOMS
      modifies this`db, m
      ensures db == Initialized(e, old(S()), nHeight).1 && |m.values| == DENOMS
      ensures Initialized(e, old(S()), nHeight).0 == match from case None => None case Some(h) => Some((h, m.values))
    {
      hide Loaded, Erased;
      if nHeight < e.startHeight {
        return None;
      }
      if nHeight == e.recalculate {
        m.Reset();
        var ok := m.Load(db, chain[e.lastGood].checkpoint);
        if !ok {
          return None;
        }
        ok := EraseCheckpoints(e.lastGood + 1, nHeight);
        if !ok {
          return None;
        }
        return Some(e.lastGood);
      }
      if nHeight >= e.v2Start {
        m.Reset();
        if nHeight <= e.v2Start + 20 {
          var hard := e.hard(nHeight);
          if hard.None? {
            return None;
          }
          m.values := hard.value.1;
          return Some(hard.value.0);
        }
      }
      var nCheckpointPrev := chain[nHeight - 1].checkpoint;
      if nCheckpointPrev == 0 {
        m.Reset();
      } else {
        var ok := m.Load(db, nCheckpointPrev);
        if !ok {
          return None;
        }
      }
      from := Some(nHeight);
    }

    method CalculateAccumulatorCheckpoint(nHeight: nat, m: AccumulatorMap) returns (checkpoint: Option<nat>)
      requires EnvOk(e) && nHeight <= |chain| && m.e == e && |m.values| == DENOMS
      modifies this`db, m
      ensures |m.values| == DENOMS
      ensures nHeight < e.v2Start ==> checkpoint == Some(0)
      ensures nHeight >= e.v2Start && nHeight % 10 != 0 ==> checkpoint == Some(chain[nHeight - 1].checkpoint)
      ensures nHeight < e.v2Start || nHeight % 10 != 0 ==> db == old(db) && m.values == old(m.values)
      ensures nHeight >= e.v2Start && nHeight % 10 == 0 ==> db == Initialized(e, old(S()), nHeight).1
      ensures nHeight >= e.v2Start && nHeight % 10 == 0 ==>
        Calculated(e, old(S()), nHeight) == match checkpoint case None => None case Some(c) => Some((c, m.values))
    {
      hide Initialized, Mints, Checkpoint, Fold;
      if nHeight < e.v2Start {
        return Some(0);
      }
      if nHeight % 10 != 0 {
        return Some(chain[nHeight - 1].checkpoint);
      }
      m.Reset();
      var from := InitializeAccumulators(nHeight, m);
      if from.None? {
        return None;
      }
      InitializedFrom(e, old(S()), nHeight);
      ghost var v := m.values;
      FoldNothing(e, v);
      assert Initialized(e, old(S()), nHeight).0 == Some((from.value, v));
      var total := AccumulateMints(from.value - 20, nHeight - 10, nHeight >= e.recalculate, m);
      if total.None? {
        return None;
      }
      if total.value == 0 {
        checkpoint := Some(chain[nHeight - 1].checkpoint);
      } else {
        var c := m.GetCheckpoint();
        checkpoint := Some(c);
      }
    }

    method AccumulateList(list: seq<Coin>, m: AccumulatorMap) returns (ok: bool)
      requires |m.values| == DENOMS && m.e == e
      modifies m
      ensures |m.values| == DENOMS && (ok <==> AllKnown(list)) && (ok ==> m.values == Fold(e, old(m.values), list))
    {
      var i := 0;
      while i < |list|
        invariant 0 <= i <= |list| && AllKnown(list[..i]) && |m.values| == DENOMS
        invariant m.values == Fold(e, old(m.values), list[..i])
      {
        assert list[..i + 1][..i] == list[..i];
        ok := m.Accumulate(list[i]);
        if !ok {
          return;
        }
        i := i + 1;
      }
      assert list[..i] == list;
      ok := true;
    }

    /** Adds the mints of blocks `lo` .. `hi` - 1; the result is their number. */
    method AccumulateMints(lo: nat, hi: nat, filter: bool, m: AccumulatorMap) returns (total: Option<nat>)
      requires |m.values| == DENOMS && m.e == e && lo <= |chain| && hi <= |chain|
      modifies m
      ensures |m.values| == DENOMS
      ensures hi <= lo ==> total == Some(0) && m.values == old(m.values)
      ensures lo <= hi ==>
        match Mints(e, chain, lo, hi, filter)
        case None => total == None
        case Some(coins) => total == Some(|coins|) && m.values == Fold(e, old(m.values), coins)
    {
      ghost var v := m.values;
      ghost var coins: seq<Coin> := [];
      var n := 0;
      var h := lo;
      while h < hi
        invariant lo <= h && (lo <= hi ==> h <= hi) && (hi < lo ==> h == lo)
        invariant lo <= hi ==> Mints(e, chain, lo, h, filter) == Some(coins)
        invariant n == |coins| && m.values == Fold(e, v, coins) && |m.values| == DENOMS
        invariant hi <= lo ==> coins == []
      {
        if h >= e.startHeight {
          var mints := chain[h].mints(filter);
          if mints.None? {
            MintsFail(e, chain, lo, h + 1, hi, filter);
            return None;
          }
          var list := mints.value;
          n := n + |list|;
          var ok := AccumulateList(list, m);
          if !ok {
            MintsFail(e, chain, lo, h + 1, hi, filter);
            return None;
          }
          FoldAppend(e, v, coins, list);
          coins := coins + list;
        }
        h := h + 1;
      }
      total := Some(n);
    }

    /** Whether a block has the right checkpoint; `m` gets the values it commits to. */
    method ValidateAccumulatorCheckpoint(block: Block, m: AccumulatorMap) returns (ok: bool)
      requires EnvOk(e) && m.e == e && m.values == e.initial
      modifies this`db, m
      ensures |m.values| == DENOMS
      ensures Validated(e, old(S()), block) == (if ok then Some(m.values) else None, db)
    {
      hide Initialized, Calculated;
      var nHeight := |chain|;
      if nHeight < e.v2Start {
        return true;
      }
      if nHeight % 10 == 0 {
        var calculated := CalculateAccumulatorCheckpoint(nHeight, m);
        return calculated == Some(block.checkpoint);
      }
      ok := block.checkpoint == chain[nHeight - 1].checkpoint;
    }

    /** Writes the checksums of all values, once the second version of the protocol has started. */
    method DatabaseChecksums(m: AccumulatorMap)
      requires m.e == e
      modifies this`db
      ensures db == if |chain| - 1 >= e.v2Start then Written(e, old(db), m.values, |m.values|) else old(db)
    {
      for i := 0 to |m.values|
        invariant db == if |chain| - 1 >= e.v2Start then Written(e, old(db), m.values, i) else old(db)
      {
        if |chain| - 1 >= e.v2Start {
          db := db[e.checksum(m.values[i]) := m.values[i]];
        }
      }
    }

    /** The part of connecting a block to the chain that is about accumulators. */
    method ConnectBlock(block: Block) returns (ok: bool)
      requires EnvOk(e)
      modifies this
      ensures ok <==> Connected(e, old(S()), block).Some?
      ensures if ok then S() == Connected(e, old(S()), block).value else S() == State(old(chain), Validated(e, old(S()), block).1)
    {
      hide Validated, Written;
      var m := new AccumulatorMap(e);
      ok := ValidateAccumulatorCheckpoint(block, m);
      if ok {
        DatabaseChecksums(m);
        chain := chain + [block];
      }
    }
  }

  lemma InitializedFrom(e: Env, s: State, h: nat)
    requires EnvOk(e) && e.v2Start <= h <= |s.chain|
    ensures var r := Initialized(e, s, h).0; r.Some? ==> 20 <= r.value.0 <= |s.chain|
  {
    hide Loaded, Erased;
  }

  /** A block whose mints cannot be had fails every range it is in. */
  lemma {:induction false} MintsFail(e: Env, chain: seq<Block>, lo: nat, mid: nat, hi: nat, filter: bool)
    requires lo <= mid <= hi <= |chain| && Mints(e, chain, lo, mid, filter) == None
    ensures Mints(e, chain, lo, hi, filter) == None
  {
    if mid < hi { MintsFail(e, chain, lo, mid, hi - 1, filter); }
  }
}
