/**
 * The serialized form of a transaction's unspent outputs: a header code, a bit mask that says which outputs are
 * unspent, those outputs, and the height. Only coins that are not pruned can be written.
 */
module CoinsCodec {
  import opened Bits
  import opened Coins
  import Compressor
  import opened Radix
  import opened Wrappers

  /** What the stream is made of. Variable-length numbers and compressed outputs are codecs of their own. */
  datatype Item = Num(n: nat) | Mask(bits: bv8) | Output(out: TxOut)

  type Stream = seq<Item>

  // ----- the bit mask of the outputs after the first two

  /** Output `i` is there and unspent. */
  predicate Avail(outs: seq<TxOut>, i: nat)
  {
    i < |outs| && !IsNull(outs[i])
  }

  /** The output that bit `p` of mask byte `b` is about is unspent. */
  predicate AvailIn(outs: seq<TxOut>, b: nat, p: nat)
  {
    Avail(outs, 2 + 8 * b + p)
  }

  /** Mask byte `b` with only its bits below `n`. */
  function MaskBits(outs: seq<TxOut>, b: nat, n: nat): bv8
    requires n <= 8
  {
    if n == 0 then 0
    else if AvailIn(outs, b, n - 1) then MaskBits(outs, b, n - 1) | Bit(n - 1)
    else MaskBits(outs, b, n - 1)
  }

  function MaskByte(outs: seq<TxOut>, b: nat): bv8
  {
    MaskBits(outs, b, 8)
  }

  lemma {:induction false} MaskHas(outs: seq<TxOut>, b: nat, n: nat, p: nat)
    requires n <= 8 && p < 8
    ensures HasBit(MaskBits(outs, b, n), p) <==> p < n && AvailIn(outs, b, p)
  {
    hide HasBit, Avail;
    if n == 0 {
      ZeroHasNoBit(p);
    } else {
      MaskHas(outs, b, n - 1, p);
      SetBit(MaskBits(outs, b, n - 1), n - 1, p);
    }
  }

  /** A mask byte is zero exactly when all of its outputs are spent or not there. */
  lemma MaskByteIsZero(outs: seq<TxOut>, b: nat)
    ensures MaskByte(outs, b) == 0 <==> forall p: nat :: p < 8 ==> !AvailIn(outs, b, p)
  {
    hide HasBit, MaskBits, AvailIn;
    forall p: nat | p < 8 ensures HasBit(MaskByte(outs, b), p) <==> AvailIn(outs, b, p) { MaskHas(outs, b, 8, p); }
    if MaskByte(outs, b) == 0 {
      forall p: nat | p < 8 ensures !AvailIn(outs, b, p) { ZeroHasNoBit(p); }
    } else {
      SomeBit(MaskByte(outs, b));
      var i: nat :| i < 8 && HasBit(MaskByte(outs, b), i);
      assert AvailIn(outs, b, i);
    }
  }

  /** Dividing a mask byte by 2^p leaves an odd number exactly if its output `p` is there and unspent. */
  lemma MaskIsQuotient(outs: seq<TxOut>, b: nat, p: nat)
    requires p < 8
    ensures Pow(2, p) > 0
    ensures (MaskByte(outs, b) as nat) / Pow(2, p) % 2 == 1 <==> 2 + 8 * b + p < |outs| && outs[2 + 8 * b + p].value != -1
  {
    hide HasBit, MaskBits, Pow;
    MaskHas(outs, b, 8, p);
    BitIsQuotient(MaskByte(outs, b), p);
  }

  /** The sum of 2^p over the unspent outputs among the first `n` that mask byte `b` is about. */
  function UnspentSum(outs: seq<TxOut>, b: nat, n: nat): nat
    requires n <= 8
  {
    if n == 0 then 0
    else
      var i := 2 + 8 * b + n - 1;
      UnspentSum(outs, b, n - 1) + if i < |outs| && outs[i].value != -1 then Pow(2, n - 1) else 0
  }

  /** A mask byte is the sum of 2^p over its unspent outputs. */
  lemma MaskIsSum(outs: seq<TxOut>, b: nat)
    ensures (MaskByte(outs, b) as nat) == UnspentSum(outs, b, 8)
  {
    hide *;
    var m := MaskByte(outs, b);
    ByteIsSum(m);
    NothingSummed(outs, b);
    NextInSum(outs, b, 0, 1);
    NextInSum(outs, b, 1, 2);
    NextInSum(outs, b, 2, 4);
    NextInSum(outs, b, 3, 8);
    NextInSum(outs, b, 4, 16);
    NextInSum(outs, b, 5, 32);
    NextInSum(outs, b, 6, 64);
    NextInSum(outs, b, 7, 128);
  }

  lemma NothingSummed(outs: seq<TxOut>, b: nat)
    ensures UnspentSum(outs, b, 0) == 0
  {
  }

  lemma NextInSum(outs: seq<TxOut>, b: nat, p: nat, w: nat)
    requires p < 8 && w == [1, 2, 4, 8, 16, 32, 64, 128][p]
    ensures UnspentSum(outs, b, p + 1) == UnspentSum(outs, b, p) + w * If(HasBit(MaskByte(outs, b), p), 1)
  {
    hide HasBit, MaskBits, Pow;
    Weights(p);
    MaskHas(outs, b, 8, p);
  }

  /** How many of mask bytes 0 .. n-1 are left when zero bytes at the end are dropped. */
  function Used(outs: seq<TxOut>, n: nat): (u: nat)
    ensures u <= n
    ensures u > 0 ==> MaskByte(outs, u - 1) != 0
    ensures forall b :: u <= b < n ==> MaskByte(outs, b) == 0
  {
    if n == 0 || MaskByte(outs, n - 1) != 0 then n else Used(outs, n - 1)
  }

  lemma {:induction false} UsedIs(outs: seq<TxOut>, n: nat, u: nat)
    requires u <= n && (u > 0 ==> MaskByte(outs, u - 1) != 0)
    requires forall b :: u <= b < n ==> MaskByte(outs, b) == 0
    ensures Used(outs, n) == u
  {
    if u < n { UsedIs(outs, n - 1, u); }
  }

  /** The number of mask bytes that all outputs take. */
  function ByteCount(outs: seq<TxOut>): (n: nat)
    ensures 2 + 8 * n >= |outs|
    ensures forall b: nat :: b < n <==> 2 + 8 * b < |outs|
  {
    if |outs| <= 2 then 0 else (|outs| + 5) / 8
  }

  function FirstBytes(outs: seq<TxOut>, n: nat): (s: seq<bv8>)
  {
    seq(n, b requires 0 <= b => MaskByte(outs, b))
  }

  /** The mask: bytes at the end that have no unspent output are not written. */
  function Masks(outs: seq<TxOut>): seq<bv8>
  {
    FirstBytes(outs, Used(outs, ByteCount(outs)))
  }

  function Nonzero(masks: seq<bv8>): (n: nat)
    ensures n <= |masks|
  {
    if masks == [] then 0 else (if masks[0] != 0 then 1 else 0) + Nonzero(masks[1..])
  }

  lemma {:induction false} NonzeroAppend(masks: seq<bv8>, m: bv8)
    ensures Nonzero(masks + [m]) == Nonzero(masks) + (if m != 0 then 1 else 0)
  {
    if masks == [] {
      assert masks + [m] == [m];
    } else {
      NonzeroAppend(masks[1..], m);
      assert (masks + [m])[1..] == masks[1..] + [m];
    }
  }

  lemma {:induction false} NonzeroOfUsed(outs: seq<TxOut>, n: nat)
    ensures Nonzero(FirstBytes(outs, n)) == Nonzero(FirstBytes(outs, Used(outs, n)))
  {
    hide Nonzero, MaskByte;
    if n > 0 && MaskByte(outs, n - 1) == 0 {
      assert FirstBytes(outs, n) == FirstBytes(outs, n - 1) + [MaskByte(outs, n - 1)];
      NonzeroAppend(FirstBytes(outs, n - 1), MaskByte(outs, n - 1));
      NonzeroOfUsed(outs, n - 1);
    }
  }

  // ----- writing

  predicate First(outs: seq<TxOut>) { Avail(outs, 0) }

  predicate Second(outs: seq<TxOut>) { Avail(outs, 1) }

  function Weight(b: bool, w: nat): nat
  {
    if b then w else 0
  }

  /** The flags, and the number of nonzero mask bytes; that number is at least one when the first two are spent. */
  function Code(c: Coins): nat
    requires !IsPruned(c)
  {
    HasUnspent(c.outs);
    16 * (Nonzero(Masks(c.outs)) - Weight(!First(c.outs) && !Second(c.outs), 1))
      + Weight(c.coinBase, 1) + Weight(c.coinStake, 2) + Weight(First(c.outs), 4) + Weight(Second(c.outs), 8)
  }

  /** The unspent ones among the first `n` outputs. */
  function Outputs(outs: seq<TxOut>, n: nat): Stream
  {
    if n == 0 then []
    else if Avail(outs, n - 1) then Outputs(outs, n - 1) + [Output(outs[n - 1])]
    else Outputs(outs, n - 1)
  }

  function MaskItems(masks: seq<bv8>): Stream
  {
    seq(|masks|, i requires 0 <= i < |masks| => Mask(masks[i]))
  }

  function Encode(c: Coins): Stream
    requires !IsPruned(c)
  {
    [Num(c.version), Num(Code(c))] + MaskItems(Masks(c.outs)) + Outputs(c.outs, |c.outs|) + [Num(c.height)]
  }

  /** The assertion in Serialize holds exactly for coins that are not pruned. */
  lemma HasUnspent(outs: seq<TxOut>)
    ensures First(outs) || Second(outs) || Nonzero(Masks(outs)) > 0 <==> exists i :: 0 <= i < |outs| && !IsNull(outs[i])
  {
    hide MaskByte;
    var n := ByteCount(outs);
    NonzeroLast(Masks(outs));
    if i :| 0 <= i < |outs| && !IsNull(outs[i]) && i >= 2 {
      var b, p := (i - 2) / 8, (i - 2) % 8;
      assert i == 2 + 8 * b + p && AvailIn(outs, b, p);
      MaskByteIsZero(outs, b);
    }
    if Masks(outs) != [] {
      var b := Used(outs, n) - 1;
      MaskByteIsZero(outs, b);
      var p: nat :| p < 8 && AvailIn(outs, b, p);
      assert !IsNull(outs[2 + 8 * b + p]);
    } else {
      assert Nonzero(Masks(outs)) == 0;
    }
  }

  lemma {:induction false} NonzeroLast(masks: seq<bv8>)
    ensures masks != [] && masks[|masks| - 1] != 0 ==> Nonzero(masks) > 0
  {
    if |masks| > 1 { NonzeroLast(masks[1..]); }
  }

  // ----- reading

  /** Reads mask bytes until `n` of them were not zero. */
  function ReadMasks(s: Stream, n: nat): (r: Option<(seq<bv8>, Stream)>)
    ensures r.Some? ==> |r.value.1| <= |s|
    decreases |s|
  {
    if n == 0 then Some(([], s))
    else if s == [] || !s[0].Mask? then None
    else
      match ReadMasks(s[1..], n - (if s[0].bits != 0 then 1 else 0))
      case None => None
      case Some((masks, rest)) => Some(([s[0].bits] + masks, rest))
  }

  function MaskFlags(masks: seq<bv8>): seq<bool>
  {
    seq(8 * |masks|, j requires 0 <= j < 8 * |masks| => HasBit(masks[j / 8], j % 8))
  }

  /** One output for each flag: read from the stream if it is unspent, null otherwise. */
  function ReadOutputs(avail: seq<bool>, s: Stream): (r: Option<(seq<TxOut>, Stream)>)
    ensures r.Some? ==> |r.value.0| == |avail| && |r.value.1| <= |s|
  {
    if avail == [] then Some(([], s))
    else
      match ReadOutputs(avail[..|avail| - 1], s)
      case None => None
      case Some((outs, rest)) =>
        if !avail[|avail| - 1] then Some((outs + [NULL_OUT], rest))
        else if rest == [] || !rest[0].Output? then None
        else Some((outs + [rest[0].out], rest[1..]))
  }

  function Flag(code: nat, w: nat): bool
    requires w > 0
  {
    code / w % 2 == 1
  }

  /** What the header code says about the number of nonzero mask bytes. */
  function MaskCode(code: nat): nat
  {
    code / 16 + Weight(!Flag(code, 4) && !Flag(code, 8), 1)
  }

  function Decode(s: Stream): (r: Option<(Coins, Stream)>)
    ensures r.Some? ==> |r.value.1| <= |s|
  {
    if |s| < 2 || !s[0].Num? || !s[1].Num? then None
    else
      var code := s[1].n;
      match ReadMasks(s[2..], MaskCode(code))
      case None => None
      case Some((masks, s1)) =>
        match ReadOutputs([Flag(code, 4), Flag(code, 8)] + MaskFlags(masks), s1)
        case None => None
        case Some((outs, s2)) =>
          if s2 == [] || !s2[0].Num? then None
          else Some((Trim(Coins(Flag(code, 1), Flag(code, 2), outs, s2[0].n, s[0].n)), s2[1..]))
  }

  // ----- what the code says

  lemma CodeFlags(a: bool, b: bool, c: bool, d: bool, k: nat, code: nat)
    requires code == 16 * k + Weight(a, 1) + Weight(b, 2) + Weight(c, 4) + Weight(d, 8)
    ensures Flag(code, 1) == a && Flag(code, 2) == b && Flag(code, 4) == c && Flag(code, 8) == d && code / 16 == k
  {
    var q8 := 2 * k + Weight(d, 1);
    var q4 := 2 * q8 + Weight(c, 1);
    var q2 := 2 * q4 + Weight(b, 1);
    DivModOf(q2, Weight(a, 1), 2);
    DivModOf(q4, Weight(b, 2) + Weight(a, 1), 4);
    DivModOf(q8, Weight(c, 4) + Weight(b, 2) + Weight(a, 1), 8);
    DivModOf(k, Weight(d, 8) + Weight(c, 4) + Weight(b, 2) + Weight(a, 1), 16);
    DivModOf(q4, Weight(b, 1), 2);
    DivModOf(q8, Weight(c, 1), 2);
    DivModOf(k, Weight(d, 1), 2);
  }

  lemma CodeOfFlags(code: nat)
    ensures code == 16 * (code / 16)
      + Weight(Flag(code, 1), 1) + Weight(Flag(code, 2), 2) + Weight(Flag(code, 4), 4) + Weight(Flag(code, 8), 8)
  {
    Halved(code, 1);
    Halved(code, 2);
    Halved(code, 4);
    Halved(code, 8);
  }

  lemma Halved(code: nat, w: nat)
    requires w in [1 as nat, 2, 4, 8]
    ensures code / w == 2 * (code / (2 * w)) + Weight(Flag(code, w), 1)
  {
  }

  lemma MaskCodeOfCode(c: Coins)
    requires !IsPruned(c)
    ensures MaskCode(Code(c)) == Nonzero(Masks(c.outs))
    ensures Flag(Code(c), 1) == c.coinBase && Flag(Code(c), 2) == c.coinStake
    ensures Flag(Code(c), 4) == First(c.outs) && Flag(Code(c), 8) == Second(c.outs)
  {
    HasUnspent(c.outs);
    hide Masks, Nonzero, Avail, Flag;
    CodeFlags(c.coinBase, c.coinStake, First(c.outs), Second(c.outs),
              Nonzero(Masks(c.outs)) - Weight(!First(c.outs) && !Second(c.outs), 1), Code(c));
  }

  // ----- reading what was written

  /** Exactly the mask bytes that were written are read back, since the last of them is not zero. */
  lemma {:induction false} ReadWrittenMasks(masks: seq<bv8>, s: Stream)
    requires masks != [] ==> masks[|masks| - 1] != 0
    ensures ReadMasks(MaskItems(masks) + s, Nonzero(masks)) == Some((masks, s))
  {
    hide *;
    ReadNoMasks(s);
    NonzeroLast(masks);
    if masks != [] {
      ReadWrittenMasks(masks[1..], s);
      FirstWritten(masks, s);
      MaskItemsCons(masks[0], masks[1..]);
      ReadMasksOfFirst(masks[0], MaskItems(masks[1..]) + s, Nonzero(masks));
    }
  }

  lemma FirstWritten(masks: seq<bv8>, s: Stream)
    requires masks != []
    ensures masks == [masks[0]] + masks[1..]
    ensures [Mask(masks[0])] + MaskItems(masks[1..]) + s == [Mask(masks[0])] + (MaskItems(masks[1..]) + s)
  {
  }

  lemma ReadMasksOfFirst(m: bv8, s: Stream, n: nat)
    requires n > 0
    ensures ReadMasks([Mask(m)] + s, n) == match ReadMasks(s, n - (if m != 0 then 1 else 0))
                                           case None => None
                                           case Some((masks, rest)) => Some(([m] + masks, rest))
  {
    assert ([Mask(m)] + s)[1..] == s;
  }

  ghost predicate Matches(outs: seq<TxOut>, avail: seq<bool>)
  {
    forall j :: 0 <= j < |avail| ==> (avail[j] <==> Avail(outs, j))
  }

  /** The first `n` outputs, with what is left in the spent ones cleared. */
  function Cleared(outs: seq<TxOut>, n: nat): seq<TxOut>
  {
    seq(n, i requires 0 <= i => if Avail(outs, i) then outs[i] else NULL_OUT)
  }

  lemma {:induction false} ReadWrittenOutputs(outs: seq<TxOut>, avail: seq<bool>, s: Stream)
    requires Matches(outs, avail)
    ensures ReadOutputs(avail, Outputs(outs, |avail|) + s) == Some((Cleared(outs, |avail|), s))
  {
    if avail == [] {
      assert Outputs(outs, 0) + s == s && Cleared(outs, 0) == [];
    } else {
      var n := |avail| - 1;
      if Avail(outs, n) {
        ReadWrittenOutputs(outs, avail[..n], [Output(outs[n])] + s);
        assert Outputs(outs, |avail|) + s == Outputs(outs, n) + ([Output(outs[n])] + s);
        assert ([Output(outs[n])] + s)[1..] == s;
      } else {
        ReadWrittenOutputs(outs, avail[..n], s);
      }
      assert Cleared(outs, n + 1) == Cleared(outs, n) + [if Avail(outs, n) then outs[n] else NULL_OUT];
    }
  }

  lemma {:induction false} OutputsBeyond(outs: seq<TxOut>, m: nat, n: nat)
    requires m <= n && forall i :: m <= i < n ==> !Avail(outs, i)
    ensures Outputs(outs, n) == Outputs(outs, m)
  {
    if m < n { OutputsBeyond(outs, m, n - 1); }
  }

  /** The flags that are read tell which outputs are unspent, and no unspent one lies behind them. */
  lemma FlagsMatch(outs: seq<TxOut>)
    ensures Matches(outs, [First(outs), Second(outs)] + MaskFlags(Masks(outs)))
    ensures forall i :: i >= 2 + 8 * |Masks(outs)| ==> !Avail(outs, i)
  {
    hide HasBit, MaskBits, Avail;
    var masks := Masks(outs);
    var avail := [First(outs), Second(outs)] + MaskFlags(masks);
    forall j | 0 <= j < |avail| ensures avail[j] <==> Avail(outs, j) {
      if j >= 2 {
        var b, p := (j - 2) / 8, (j - 2) % 8;
        MaskHas(outs, b, 8, p);
        assert avail[j] == HasBit(masks[b], p);
        assert j == 2 + 8 * b + p;
      }
    }
    forall i | i >= 2 + 8 * |masks| ensures !Avail(outs, i) {
      NoneBehind(outs, i);
    }
  }

  lemma NoneBehind(outs: seq<TxOut>, i: nat)
    requires i >= 2 + 8 * |Masks(outs)|
    ensures !Avail(outs, i)
  {
    hide MaskByte, Avail;
    var b, p := (i - 2) / 8, (i - 2) % 8;
    assert i == 2 + 8 * b + p;
    if Avail(outs, i) {
      assert AvailIn(outs, b, p);
      MaskByteIsZero(outs, b);
      LastByteCounts(outs, b);
    }
  }

  lemma {:induction false} TrimIs(outs: seq<TxOut>, k: nat)
    requires k <= |outs| && (forall i :: k <= i < |outs| ==> IsNull(outs[i])) && (k > 0 ==> !IsNull(outs[k - 1]))
    ensures TrimOuts(outs) == outs[..k]
  {
    if k < |outs| {
      TrimIs(outs[..|outs| - 1], k);
      assert outs[..|outs| - 1][..k] == outs[..k];
    } else {
      assert outs[..k] == outs;
    }
  }

  /** What writing and reading preserves: the trimmed coins, with what is left in spent outputs cleared. */
  function Clean(c: Coins): Coins
  {
    c.(outs := Cleared(c.outs, |TrimOuts(c.outs)|))
  }

  lemma ClearedTrims(outs: seq<TxOut>, n: nat)
    requires forall i :: i >= n ==> !Avail(outs, i)
    ensures TrimOuts(Cleared(outs, n)) == Cleared(outs, |TrimOuts(outs)|)
  {
    TrimOutsIs(outs);
    var k := |TrimOuts(outs)|;
    assert k > 0 ==> Avail(outs, k - 1);
    TrimIs(Cleared(outs, n), k);
  }

  /** Reading the serialized form of any coins that are not pruned gives them back, cleaned up. */
  lemma DecodeEncoded(c: Coins, tail: Stream)
    requires !IsPruned(c)
    ensures Decode(Encode(c) + tail) == Some((Clean(c), tail))
  {
    hide ReadMasks, ReadOutputs, Outputs, Code, Masks, MaskCode, Flag, TrimOuts, IsPruned, Cleared, Nonzero, MaskFlags, Avail;
    var masks, s := Masks(c.outs), Encode(c) + tail;
    var avail := [First(c.outs), Second(c.outs)] + MaskFlags(masks);
    var last := [Num(c.height)] + tail;
    MaskCodeOfCode(c);
    FlagsMatch(c.outs);
    MasksEnd(c.outs);
    var s1 := Outputs(c.outs, |c.outs|) + last;
    assert s[2..] == MaskItems(masks) + s1;
    ReadWrittenMasks(masks, s1);
    MaskFlagsLength(masks);
    if |avail| <= |c.outs| { OutputsBeyond(c.outs, |avail|, |c.outs|); }
    else { NotAvailBeyond(c.outs); OutputsBeyond(c.outs, |c.outs|, |avail|); }
    ReadWrittenOutputs(c.outs, avail, last);
    ClearedTrims(c.outs, |avail|);
    assert last[1..] == tail;
  }

  lemma NotAvailBeyond(outs: seq<TxOut>)
    ensures forall i :: i >= |outs| ==> !Avail(outs, i)
  {
  }

  lemma MaskFlagsLength(masks: seq<bv8>)
    ensures |MaskFlags(masks)| == 8 * |masks|
  {
  }

  lemma MasksEnd(outs: seq<TxOut>)
    ensures Masks(outs) != [] ==> Masks(outs)[|Masks(outs)| - 1] != 0
  {
  }

  // ----- whatever can be read was written

  /** Reading an output's compressed amount can yield this one. */
  ghost predicate CanBeRead(o: TxOut)
  {
    exists x: nat :: x < Compressor.U64 && Compressor.Signed(Compressor.Decompressed(x) % Compressor.U64) == o.value
  }

  /** All outputs in the stream are such that reading bytes can yield them. */
  ghost predicate AllCanBeRead(s: Stream)
  {
    forall i :: 0 <= i < |s| && s[i].Output? ==> CanBeRead(s[i].out)
  }

  lemma ReadIsNotNull(o: TxOut)
    requires CanBeRead(o)
    ensures !IsNull(o)
  {
    hide Compressor.Decompressed, Compressor.Signed;
    var x: nat :| x < Compressor.U64 && Compressor.Signed(Compressor.Decompressed(x) % Compressor.U64) == o.value;
    Compressor.NeverNull(x);
  }

  lemma NoneIsNull(s: Stream, rest: Stream)
    requires AllCanBeRead(s) && |rest| <= |s|
    ensures NoNullBefore(s, rest)
  {
    hide CanBeRead;
    forall i | 0 <= i < |s| && s[i].Output? ensures !IsNull(s[i].out) { ReadIsNotNull(s[i].out); }
  }

  /** None of the outputs before `rest` is null. */
  ghost predicate NoNullBefore(s: Stream, rest: Stream)
    requires |rest| <= |s|
  {
    forall i :: 0 <= i < |s| - |rest| && s[i].Output? ==> !IsNull(s[i].out)
  }

  lemma {:induction false} MasksThatWereRead(s: Stream, n: nat)
    requires ReadMasks(s, n).Some?
    ensures var (masks, rest) := ReadMasks(s, n).value;
      && s == MaskItems(masks) + rest && Nonzero(masks) == n
      && (masks != [] ==> masks[|masks| - 1] != 0)
    decreases |s|
  {
    hide *;
    ReadNoMasks(s);
    if n > 0 {
      ReadMasksStep(s, n);
      var m := n - (if s[0].bits != 0 then 1 else 0);
      MasksThatWereRead(s[1..], m);
      var (masks1, rest) := ReadMasks(s[1..], m).value;
      MaskItemsCons(s[0].bits, masks1);
      FirstIsRead(s, MaskItems(masks1), rest);
    }
  }

  lemma ReadNoMasks(s: Stream)
    ensures ReadMasks(s, 0) == Some(([], s)) && MaskItems([]) + s == s && Nonzero([]) == 0
  {
  }

  lemma FirstIsRead(s: Stream, items: Stream, rest: Stream)
    requires s != [] && s[1..] == items + rest
    ensures s == [s[0]] + items + rest
  {
  }

  /** How the first mask byte is read. */
  lemma ReadMasksStep(s: Stream, n: nat)
    requires n > 0 && ReadMasks(s, n).Some?
    ensures s != [] && s[0].Mask? && ReadMasks(s[1..], n - (if s[0].bits != 0 then 1 else 0)).Some?
    ensures var (masks, rest) := ReadMasks(s[1..], n - (if s[0].bits != 0 then 1 else 0)).value;
      ReadMasks(s, n).value == ([s[0].bits] + masks, rest)
  {
  }

  lemma MaskItemsCons(m: bv8, masks: seq<bv8>)
    ensures MaskItems([m] + masks) == [Mask(m)] + MaskItems(masks)
    ensures Nonzero([m] + masks) == Nonzero(masks) + (if m != 0 then 1 else 0)
  {
    assert ([m] + masks)[1..] == masks;
  }

  /** How the last output comes to be read. */
  lemma ReadOutputsStep(avail: seq<bool>, s: Stream)
    requires avail != [] && ReadOutputs(avail, s).Some?
    ensures var n := |avail| - 1;
      var (outs, rest) := ReadOutputs(avail, s).value;
      && ReadOutputs(avail[..n], s).Some?
      && var (outs1, rest1) := ReadOutputs(avail[..n], s).value;
        && |outs1| == n && outs == outs1 + [outs[n]]
        && rest1 == (if avail[n] then [Output(outs[n])] else []) + rest && (!avail[n] ==> outs[n] == NULL_OUT)
  {
  }

  lemma {:induction false} OutputsThatWereRead(avail: seq<bool>, s: Stream)
    requires ReadOutputs(avail, s).Some? && NoNullBefore(s, ReadOutputs(avail, s).value.1)
    ensures var (outs, rest) := ReadOutputs(avail, s).value;
      && s == Outputs(outs, |avail|) + rest && Matches(outs, avail)
      && Cleared(outs, |avail|) == outs
  {
    var (outs, rest) := ReadOutputs(avail, s).value;
    if avail != [] {
      var n := |avail| - 1;
      ReadOutputsStep(avail, s);
      hide ReadOutputs, Outputs, Matches, Cleared;
      var (outs1, rest1) := ReadOutputs(avail[..n], s).value;
      assert NoNullBefore(s, rest1);
      OutputsThatWereRead(avail[..n], s);
      var before := Outputs(outs1, n);
      assert avail[n] ==> s[|before|] == Output(outs[n]);
      hide NoNullBefore;
      OneMoreOutput(avail, outs1, outs[n]);
      assert s == before + (if avail[n] then [Output(outs[n])] else []) + rest;
    }
  }

  lemma OneMoreOutput(avail: seq<bool>, outs: seq<TxOut>, o: TxOut)
    requires |avail| == |outs| + 1 && Matches(outs, avail[..|outs|]) && Cleared(outs, |outs|) == outs
    requires (avail[|outs|] <==> !IsNull(o)) && (IsNull(o) ==> o == NULL_OUT)
    ensures Matches(outs + [o], avail) && Cleared(outs + [o], |avail|) == outs + [o]
    ensures Outputs(outs + [o], |avail|) == Outputs(outs, |outs|) + (if avail[|outs|] then [Output(o)] else [])
  {
    hide *;
    OneMoreMatch(avail, outs, o);
    OneMoreCleared(outs, o, |avail|);
    OneMoreInOutputs(outs, o, avail[|outs|], |avail|);
  }

  lemma OneMoreMatch(avail: seq<bool>, outs: seq<TxOut>, o: TxOut)
    requires |avail| == |outs| + 1 && Matches(outs, avail[..|outs|]) && (avail[|outs|] <==> !IsNull(o))
    ensures Matches(outs + [o], avail)
  {
    forall j | 0 <= j < |avail| ensures avail[j] <==> Avail(outs + [o], j) {
      if j < |outs| { assert avail[..|outs|][j] <==> Avail(outs, j); }
    }
  }

  lemma OneMoreInOutputs(outs: seq<TxOut>, o: TxOut, isAvail: bool, n: nat)
    requires isAvail <==> !IsNull(o)
    requires n == |outs| + 1
    ensures Outputs(outs + [o], n) == Outputs(outs, |outs|) + (if isAvail then [Output(o)] else [])
  {
    OutputsOfPrefix(outs, outs + [o], |outs|);
    assert Avail(outs + [o], n - 1) <==> isAvail;
  }

  lemma OneMoreCleared(outs: seq<TxOut>, o: TxOut, n: nat)
    requires Cleared(outs, |outs|) == outs && (IsNull(o) ==> o == NULL_OUT) && n == |outs| + 1
    ensures Cleared(outs + [o], n) == outs + [o]
  {
    forall i | 0 <= i < |outs| ensures Cleared(outs + [o], n)[i] == Cleared(outs, |outs|)[i] {}
  }

  lemma {:induction false} OutputsOfPrefix(outs: seq<TxOut>, more: seq<TxOut>, n: nat)
    requires n <= |outs| && outs <= more
    ensures Outputs(more, n) == Outputs(outs, n)
  {
    if n > 0 { OutputsOfPrefix(outs, more, n - 1); }
  }

  /** Flags that match the outputs determine the mask. */
  lemma MasksFromFlags(outs: seq<TxOut>, first: bool, second: bool, masks: seq<bv8>)
    requires Matches(outs, [first, second] + MaskFlags(masks)) && |outs| <= 2 + 8 * |masks|
    requires masks != [] ==> masks[|masks| - 1] != 0
    ensures Masks(outs) == masks && First(outs) == first && Second(outs) == second
  {
    hide MaskBits, HasBit, Avail;
    var avail := [first, second] + MaskFlags(masks);
    assert avail[0] == first && avail[1] == second;
    forall b: nat | b < |masks| ensures MaskByte(outs, b) == masks[b] { ByteFromFlags(outs, avail, masks, b); }
    var n := ByteCount(outs);
    assert |masks| > 0 ==> |masks| - 1 < n by {
      if |masks| > 0 { LastByteCounts(outs, |masks| - 1); }
    }
    BytesInUse(outs, |masks|);
    assert n <= |masks|;
    UsedIs(outs, n, |masks|);
  }

  lemma LastByteCounts(outs: seq<TxOut>, b: nat)
    requires MaskByte(outs, b) != 0
    ensures b < ByteCount(outs)
  {
    MaskByteIsZero(outs, b);
    hide MaskByte, ByteCount;
    var p: nat :| p < 8 && AvailIn(outs, b, p);
    assert 2 + 8 * b < |outs|;
    BytesInUse(outs, b);
  }

  lemma BytesInUse(outs: seq<TxOut>, b: nat)
    ensures b < ByteCount(outs) <==> 2 + 8 * b < |outs|
  {
  }

  lemma ByteFromFlags(outs: seq<TxOut>, avail: seq<bool>, masks: seq<bv8>, b: nat)
    requires |avail| >= 2 && avail[2..] == MaskFlags(masks) && Matches(outs, avail) && b < |masks|
    ensures MaskByte(outs, b) == masks[b]
  {
    hide MaskBits, HasBit, Avail;
    forall p: nat | p < 8 ensures HasBit(MaskByte(outs, b), p) <==> HasBit(masks[b], p) {
      MaskHas(outs, b, 8, p);
      FlagIndex(masks, b, p);
      assert avail[2..][8 * b + p] == avail[2 + 8 * b + p];
    }
    SameBits(MaskByte(outs, b), masks[b]);
  }

  lemma FlagIndex(masks: seq<bv8>, b: nat, p: nat)
    requires b < |masks| && p < 8
    ensures 8 * b + p < |MaskFlags(masks)| && MaskFlags(masks)[8 * b + p] == HasBit(masks[b], p)
  {
    hide HasBit;
    assert (8 * b + p) / 8 == b && (8 * b + p) % 8 == p;
  }

  lemma MatchesTrimmed(outs: seq<TxOut>, avail: seq<bool>)
    requires Matches(outs, avail) && |outs| == |avail|
    ensures Matches(TrimOuts(outs), avail) && |TrimOuts(outs)| <= |avail|
    ensures Outputs(TrimOuts(outs), |TrimOuts(outs)|) == Outputs(outs, |outs|)
    ensures (forall i :: 0 <= i < |outs| ==> IsNull(outs[i])) <==> TrimOuts(outs) == []
  {
    TrimOutsIs(outs);
    var k := |TrimOuts(outs)|;
    OutputsOfPrefix(TrimOuts(outs), outs, k);
    OutputsBeyond(outs, k, |outs|);
    hide TrimOuts;
    forall j | 0 <= j < |avail| ensures avail[j] <==> Avail(TrimOuts(outs), j) {
      if j >= k { assert IsNull(outs[j]); } else { assert TrimOuts(outs)[j] == outs[j]; }
    }
  }

  /** Outputs after the mask, and before what follows the coins, are among those of the coins. */
  lemma NoNullWithin(s: Stream, s1: Stream, s2: Stream, tail: Stream)
    requires |tail| <= |s2| <= |s1| <= |s| && s1 == s[|s| - |s1|..] && NoNullBefore(s, tail)
    ensures NoNullBefore(s1, s2)
  {
    forall i | 0 <= i < |s1| - |s2| ensures s1[i] == s[|s| - |s1| + i] {}
  }

  /** What was read is clean, not pruned, and the stream had its encoding. */
  lemma EncodeDecoded(s: Stream)
    requires Decode(s).Some? && AllCanBeRead(s)
    ensures var (c, tail) := Decode(s).value;
      !IsPruned(c) && Clean(c) == c && s == Encode(c) + tail
  {
    hide ReadMasks, ReadOutputs, Outputs, Code, Masks, Flag, TrimOuts, IsPruned, Cleared, Nonzero, MaskFlags, Avail,
         NoNullBefore, AllCanBeRead;
    NoneIsNull(s, Decode(s).value.1);
    var code := s[1].n;
    var (masks, s1) := ReadMasks(s[2..], MaskCode(code)).value;
    MasksThatWereRead(s[2..], MaskCode(code));
    var avail := [Flag(code, 4), Flag(code, 8)] + MaskFlags(masks);
    var (outs, s2) := ReadOutputs(avail, s1).value;
    var (c, tail) := Decode(s).value;
    assert s2 == [Num(c.height)] + tail;
    assert s == [s[0], s[1]] + s[2..];
    assert s1 == s[|s| - |s1|..];
    NoNullWithin(s, s1, s2, tail);
    OutputsThatWereRead(avail, s1);
    ReadCoinsAreClean(code, masks, outs, c);
    EncodingIs(c, code, masks, outs);
  }

  /** What the parts of a stream that were read make of the coins. */
  lemma ReadCoinsAreClean(code: nat, masks: seq<bv8>, outs: seq<TxOut>, c: Coins)
    requires var avail := [Flag(code, 4), Flag(code, 8)] + MaskFlags(masks);
      Matches(outs, avail) && |outs| == |avail| && Cleared(outs, |avail|) == outs
    requires Nonzero(masks) == MaskCode(code) && (masks != [] ==> masks[|masks| - 1] != 0)
    requires c == Trim(Coins(Flag(code, 1), Flag(code, 2), outs, c.height, c.version))
    ensures !IsPruned(c) && Clean(c) == c && Masks(c.outs) == masks && Code(c) == code
    ensures Outputs(c.outs, |c.outs|) == Outputs(outs, |outs|)
  {
    hide Outputs, Code, Masks, Flag, TrimOuts, IsPruned, Cleared, Nonzero, MaskFlags, Avail;
    var avail := [Flag(code, 4), Flag(code, 8)] + MaskFlags(masks);
    MaskFlagsLength(masks);
    MatchesTrimmed(outs, avail);
    MasksFromFlags(c.outs, Flag(code, 4), Flag(code, 8), masks);
    HasUnspent(c.outs);
    CodeOfFlags(code);
    NotPruned(c);
    CodeIs(c, code);
    ClearedOfTrimmed(outs);
  }

  lemma EncodingIs(c: Coins, code: nat, masks: seq<bv8>, outs: seq<TxOut>)
    requires !IsPruned(c) && Masks(c.outs) == masks && Code(c) == code
    requires Outputs(c.outs, |c.outs|) == Outputs(outs, |outs|)
    ensures Encode(c) == [Num(c.version), Num(code)] + (MaskItems(masks) + (Outputs(outs, |outs|) + [Num(c.height)]))
  {
    hide Outputs, Code, Masks, IsPruned, MaskItems;
  }

  lemma NotPruned(c: Coins)
    requires exists i :: 0 <= i < |c.outs| && !IsNull(c.outs[i])
    ensures !IsPruned(c)
  {
  }

  lemma CodeIs(c: Coins, code: nat)
    requires !IsPruned(c) && Nonzero(Masks(c.outs)) == MaskCode(code)
    requires First(c.outs) == Flag(code, 4) && Second(c.outs) == Flag(code, 8)
    requires c.coinBase == Flag(code, 1) && c.coinStake == Flag(code, 2)
    ensures Code(c) == code
  {
    HasUnspent(c.outs);
    hide Nonzero, Masks, Avail, Flag;
    CodeOfFlags(code);
  }

  lemma ClearedOfTrimmed(outs: seq<TxOut>)
    requires Cleared(outs, |outs|) == outs
    ensures Cleared(TrimOuts(outs), |TrimOuts(TrimOuts(outs))|) == TrimOuts(outs)
  {
    TrimOutsIs(outs);
    TrimIs(TrimOuts(outs), |TrimOuts(outs)|);
    hide TrimOuts;
    forall i | 0 <= i < |TrimOuts(outs)| ensures Cleared(TrimOuts(outs), |TrimOuts(outs)|)[i] == TrimOuts(outs)[i] {
      assert Cleared(outs, |outs|)[i] == outs[i];
    }
  }

  /** Exactly the encodings are accepted, each with what it encodes. */
  lemma DecodingIsExact(s: Stream, c: Coins, tail: Stream)
    requires AllCanBeRead(s)
    ensures Decode(s) == Some((c, tail)) <==> !IsPruned(c) && Clean(c) == c && s == Encode(c) + tail
  {
    hide Decode, Encode, Clean, IsPruned, AllCanBeRead;
    if Decode(s) == Some((c, tail)) { EncodeDecoded(s); }
    if !IsPruned(c) && Clean(c) == c && s == Encode(c) + tail { DecodeEncoded(c, tail); }
  }

  // ----- the loops

  /** The number of mask bytes and how many of them are not zero. */
  method CalcMaskSize(outs: seq<TxOut>) returns (nBytes: nat, nNonzeroBytes: nat)
    ensures nBytes == |Masks(outs)| && nNonzeroBytes == Nonzero(Masks(outs))
  {
    hide MaskByte, Nonzero;
    nNonzeroBytes := 0;
    var nLastUsedByte, b := 0, 0;
    while 2 + b * 8 < |outs|
      invariant 0 <= b <= ByteCount(outs) && nLastUsedByte == Used(outs, b)
      invariant nNonzeroBytes == Nonzero(FirstBytes(outs, b))
    {
      var fZero := true;
      var i := 0;
      while i < 8 && 2 + b * 8 + i < |outs|
        invariant 0 <= i <= 8 && (fZero <==> forall p: nat :: p < i ==> !AvailIn(outs, b, p))
      {
        assert AvailIn(outs, b, i) <==> !IsNull(outs[2 + b * 8 + i]);
        if !IsNull(outs[2 + b * 8 + i]) {
          fZero := false;
        }
        i := i + 1;
      }
      assert forall p: nat :: i <= p < 8 ==> !AvailIn(outs, b, p);
      MaskByteIsZero(outs, b);
      assert fZero <==> MaskByte(outs, b) == 0;
      assert FirstBytes(outs, b + 1) == FirstBytes(outs, b) + [MaskByte(outs, b)];
      NonzeroAppend(FirstBytes(outs, b), MaskByte(outs, b));
      if !fZero {
        nLastUsedByte := b + 1;
        nNonzeroBytes := nNonzeroBytes + 1;
      }
      b := b + 1;
    }
    assert FirstBytes(outs, 0) == [];
    NonzeroOfUsed(outs, b);
    nBytes := nLastUsedByte;
  }

  method Serialize(c: Coins) returns (s: Stream)
    requires !IsPruned(c)
    ensures s == Encode(c)
  {
    hide MaskByte, Nonzero, Masks, Avail;
    var nMaskSize, nMaskCode := CalcMaskSize(c.outs);
    var fFirst := Avail(c.outs, 0);
    var fSecond := Avail(c.outs, 1);
    HasUnspent(c.outs);
    assert fFirst || fSecond || nMaskCode > 0;
    var nCode := 16 * (nMaskCode - (if fFirst || fSecond then 0 else 1)) + (if c.coinBase then 1 else 0)
      + (if c.coinStake then 2 else 0) + (if fFirst then 4 else 0) + (if fSecond then 8 else 0);
    var mask := WriteMask(c.outs, nMaskSize);
    var outputs := WriteOutputs(c.outs);
    s := [Num(c.version), Num(nCode)] + mask + outputs + [Num(c.height)];
  }

  method WriteMask(outs: seq<TxOut>, nMaskSize: nat) returns (s: Stream)
    requires nMaskSize == |Masks(outs)|
    ensures s == MaskItems(Masks(outs))
  {
    hide Avail, Used;
    s := [];
    for b := 0 to nMaskSize
      invariant s == MaskItems(Masks(outs)[..b])
    {
      var chAvail: bv8 := 0;
      var i := 0;
      while i < 8 && 2 + b * 8 + i < |outs|
        invariant 0 <= i <= 8 && chAvail == MaskBits(outs, b, i)
      {
        assert AvailIn(outs, b, i) <==> Avail(outs, 2 + b * 8 + i);
        if Avail(outs, 2 + b * 8 + i) {
          chAvail := chAvail | Bit(i);
        }
        i := i + 1;
      }
      ShortByte(outs, b, i);
      s := s + [Mask(chAvail)];
      assert Masks(outs)[..b + 1] == Masks(outs)[..b] + [MaskByte(outs, b)];
    }
    assert Masks(outs)[..nMaskSize] == Masks(outs);
  }

  lemma {:induction false} ShortByte(outs: seq<TxOut>, b: nat, i: nat)
    requires i <= 8 && (i < 8 ==> 2 + b * 8 + i >= |outs|)
    ensures MaskBits(outs, b, i) == MaskByte(outs, b)
    decreases 8 - i
  {
    if i < 8 { ShortByte(outs, b, i + 1); }
  }

  method WriteOutputs(outs: seq<TxOut>) returns (s: Stream)
    ensures s == Outputs(outs, |outs|)
  {
    s := [];
    for i := 0 to |outs|
      invariant s == Outputs(outs, i)
    {
      if !IsNull(outs[i]) {
        s := s + [Output(outs[i])];
      }
    }
  }

  /** Reads coins from the front of a stream; there is no result when the stream ends or has something else. */
  method Unserialize(s: Stream) returns (r: Option<(Coins, Stream)>)
    ensures r == Decode(s)
  {
    hide ReadMasks, ReadOutputs, Flag, TrimOuts;
    if |s| < 2 || !s[0].Num? || !s[1].Num? {
      return None;
    }
    var nCode := s[1].n;
    var first, second := Flag(nCode, 4), Flag(nCode, 8);
    var nMaskCode := nCode / 16 + (if first || second then 0 else 1);
    var rest, vAvail := s[2..], [first, second];
    var masks := UnserializeMask(rest, nMaskCode);
    if masks.None? {
      return None;
    }
    vAvail := vAvail + masks.value.0;
    var outs := UnserializeOutputs(vAvail, masks.value.1);
    if outs.None? {
      return None;
    }
    rest := outs.value.1;
    if rest == [] || !rest[0].Num? {
      return None;
    }
    var c := Cleanup(Coins(Flag(nCode, 1), Flag(nCode, 2), outs.value.0, rest[0].n, s[0].n));
    r := Some((c, rest[1..]));
  }

  method UnserializeMask(s: Stream, n: nat) returns (r: Option<(seq<bool>, Stream)>)
    ensures r == match ReadMasks(s, n) case None => None case Some((masks, rest)) => Some((MaskFlags(masks), rest))
  {
    hide HasBit;
    var nMaskCode, rest, avail: seq<bool> := n, s, [];
    ghost var masks: seq<bv8> := [];
    assert forall m: seq<bv8> :: [] + m == m;
    while nMaskCode > 0
      invariant avail == MaskFlags(masks)
      invariant ReadMasks(s, n) == match ReadMasks(rest, nMaskCode) case None => None case Some((m, t)) => Some((masks + m, t))
      decreases |rest|
    {
      if rest == [] || !rest[0].Mask? {
        return None;
      }
      var chAvail := rest[0].bits;
      rest := rest[1..];
      ghost var before := avail;
      var p := 0;
      while p < 8
        invariant 0 <= p <= 8 && |avail| == |before| + p && before == avail[..|before|]
        invariant forall q: nat :: q < p ==> avail[|before| + q] == HasBit(chAvail, q)
      {
        avail := avail + [HasBit(chAvail, p)];
        p := p + 1;
      }
      MaskFlagsAppend(masks, chAvail, avail);
      assert forall m: seq<bv8> :: masks + ([chAvail] + m) == (masks + [chAvail]) + m;
      masks := masks + [chAvail];
      if chAvail != 0 {
        nMaskCode := nMaskCode - 1;
      }
    }
    assert masks + [] == masks;
    r := Some((avail, rest));
  }

  lemma MaskFlagsAppend(masks: seq<bv8>, m: bv8, avail: seq<bool>)
    requires |avail| == 8 * |masks| + 8 && avail[..8 * |masks|] == MaskFlags(masks)
    requires forall q: nat :: q < 8 ==> avail[8 * |masks| + q] == HasBit(m, q)
    ensures avail == MaskFlags(masks + [m])
  {
    hide HasBit;
    forall j | 0 <= j < |avail| ensures avail[j] == MaskFlags(masks + [m])[j] {
      if j < 8 * |masks| {
        assert avail[..8 * |masks|][j] == avail[j];
      } else {
        assert j == 8 * |masks| + j % 8 && j / 8 == |masks|;
      }
    }
  }

  method UnserializeOutputs(avail: seq<bool>, s: Stream) returns (r: Option<(seq<TxOut>, Stream)>)
    ensures r == ReadOutputs(avail, s)
  {
    var vout, rest := [], s;
    for i := 0 to |avail|
      invariant ReadOutputs(avail[..i], s) == Some((vout, rest))
    {
      assert avail[..i + 1][..i] == avail[..i];
      if avail[i] {
        if rest == [] || !rest[0].Output? {
          ReadFails(avail, i + 1, s);
          return None;
        }
        vout, rest := vout + [rest[0].out], rest[1..];
      } else {
        vout := vout + [NULL_OUT];
      }
    }
    assert avail[..|avail|] == avail;
    r := Some((vout, rest));
  }

  lemma {:induction false} ReadFails(avail: seq<bool>, i: nat, s: Stream)
    requires i <= |avail| && ReadOutputs(avail[..i], s) == None
    ensures ReadOutputs(avail, s) == None
  {
    if i < |avail| {
      assert avail[..|avail| - 1][..i] == avail[..i];
      ReadFails(avail[..|avail| - 1], i, s);
    } else {
      assert avail[..i] == avail;
    }
  }
}
