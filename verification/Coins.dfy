/**
 * The unspent outputs of one transaction.
 */
module Coins {
  import opened Wrappers

  /** An output; a spent one is null, which its value tells. */
  datatype TxOut = TxOut(value: int, script: seq<Byte>)

  const NULL_OUT := TxOut(-1, [])

  predicate IsNull(o: TxOut)
  {
    o.value == -1
  }

  datatype Coins = Coins(coinBase: bool, coinStake: bool, outs: seq<TxOut>, height: nat, version: nat)

  const NO_COINS := Coins(false, false, [], 0, 0)

  /** All outputs are spent. */
  predicate IsPruned(c: Coins)
  {
    forall i :: 0 <= i < |c.outs| ==> IsNull(c.outs[i])
  }

  /** The outputs without the spent ones at the end. */
  function TrimOuts(outs: seq<TxOut>): seq<TxOut>
  {
    if outs != [] && IsNull(outs[|outs| - 1]) then TrimOuts(outs[..|outs| - 1]) else outs
  }

  /** What Cleanup leaves. */
  function Trim(c: Coins): Coins
  {
    c.(outs := TrimOuts(c.outs))
  }

  predicate IsTrimmed(c: Coins)
  {
    c.outs != [] ==> !IsNull(c.outs[|c.outs| - 1])
  }

  lemma {:induction false} TrimOutsIs(outs: seq<TxOut>)
    ensures |TrimOuts(outs)| <= |outs| && TrimOuts(outs) == outs[..|TrimOuts(outs)|]
    ensures forall i :: |TrimOuts(outs)| <= i < |outs| ==> IsNull(outs[i])
    ensures TrimOuts(outs) != [] ==> !IsNull(TrimOuts(outs)[|TrimOuts(outs)| - 1])
  {
    if outs != [] && IsNull(outs[|outs| - 1]) { TrimOutsIs(outs[..|outs| - 1]); }
  }

  /** Trimming loses no unspent output; trimmed coins are pruned only when they are empty. */
  lemma TrimKeeps(c: Coins)
    ensures IsTrimmed(Trim(c)) && (IsPruned(Trim(c)) <==> IsPruned(c))
    ensures IsPruned(c) <==> Trim(c).outs == []
    ensures IsTrimmed(c) <==> Trim(c) == c
  {
    TrimOutsIs(c.outs);
  }

  /** Removes spent outputs at the end. */
  method Cleanup(c: Coins) returns (r: Coins)
    ensures r == Trim(c)
  {
    var vout := c.outs;
    while |vout| > 0 && IsNull(vout[|vout| - 1])
      invariant TrimOuts(vout) == TrimOuts(c.outs)
    {
      vout := vout[..|vout| - 1];
    }
    r := c.(outs := vout);
  }
}
