/**
 * The two records that the program's documentation of the format shows, with the header code that holds a coinstake
 * flag as well (src/coins.h).
 */
module CoinsExample {
  import opened Bits
  import opened Coins
  import opened CoinsBytes
  import opened CoinsCodec
  import opened Compressor
  import opened Radix
  import opened VarInt
  import opened Wrappers

  type Hash = h: seq<Byte> | |h| == 20 witness seq(20, _ => 0)

  function ToKeyId(h: Hash): Script
  {
    [0x76, 0xa9, 20] + h + [0x88, 0xac]
  }

  lemma NumberIs(n: nat, a: seq<Byte>)
    requires IsEncoding(a) && Sum(a) == n
    ensures Encoded(n, true) == a
  {
    EncodedIsSum(n, a);
  }

  lemma Powers()
    ensures Pow(128, 1) == 128 && Pow(128, 2) == 16384 && Pow(128, 3) == 2097152 && Pow(128, 4) == 268435456
  {
  }

  lemma OneByte(a: Byte)
    requires a < 128
    ensures IsEncoding([a]) && Sum([a]) == a
  {
  }

  lemma TwoBytes(a: Byte, b: Byte)
    ensures Sum([a, b]) == (a % 128 + 1) * 128 + b % 128
  {
    Powers();
    assert [a, b][1..] == [b];
  }

  lemma ThreeBytes(a: Byte, b: Byte, c: Byte)
    ensures Sum([a, b, c]) == (a % 128 + 1) * 16384 + (b % 128 + 1) * 128 + c % 128
  {
    Powers();
    TwoBytes(b, c);
    assert [a, b, c][1..] == [b, c];
  }

  lemma FiveBytes(a: Byte, b: Byte, c: Byte, d: Byte, e: Byte)
    ensures Sum([a, b, c, d, e])
      == (a % 128 + 1) * 268435456 + (b % 128 + 1) * 2097152 + (c % 128 + 1) * 16384 + (d % 128 + 1) * 128 + e % 128
  {
    Powers();
    ThreeBytes(c, d, e);
    assert [a, b, c, d, e][1..] == [b, c, d, e] && [b, c, d, e][1..] == [c, d, e];
  }

  /** An output to a key hash: its compressed amount, tag 0 and the hash. */
  lemma OutputIs(value: nat, h: Hash, compressed: nat, amount: seq<Byte>, k: Curve)
    requires Compressed(value) == compressed < U64 && IsEncoding(amount) && Sum(amount) == compressed
    ensures OutputBytes(value, ToKeyId(h), k) == amount + ([0] + h)
  {
    hide *;
    NumberIs(compressed, amount);
    KeyIdForm(h, k);
    OutputBytesAre(value, ToKeyId(h), k);
  }

  lemma KeyIdForm(h: Hash, k: Curve)
    ensures Encoding(ToKeyId(h), k) == [0] + h
  {
    FormsOfScripts(h, seq(32, _ => 0), seq(32, _ => 0), 2, k);
    hide Encoding;
  }

  lemma OutputBytesAre(value: nat, script: Script, k: Curve)
    ensures OutputBytes(value, script, k) == Encoded(Compressed(value) % U64, true) + Encoding(script, k)
    ensures Compressed(value) < U64 ==> Compressed(value) % U64 == Compressed(value)
  {
    hide Encoded, Compressed, Encoding;
  }

  lemma NumberItem(n: nat, a: seq<Byte>, k: Curve)
    requires n < U32 && IsEncoding(a) && Sum(a) == n
    ensures Fits(Num(n)) && ItemBytes(Num(n), k) == a
  {
    NumberIs(n, a);
    hide Encoded;
  }

  lemma OutputItem(value: nat, h: Hash, compressed: nat, amount: seq<Byte>, k: Curve)
    requires value <= MAX_MONEY_OUT && Compressed(value) == compressed < U64 && IsEncoding(amount) && Sum(amount) == compressed
    ensures var o := Output(TxOut(value, ToKeyId(h))); Fits(o) && ItemBytes(o, k) == amount + ([0] + h)
  {
    OutputIs(value, h, compressed, amount, k);
    assert |ToKeyId(h)| == 25;
    hide ToKeyId, OutputBytes;
  }

  // ----- the first record: 600 coins in the second output

  function FirstRecord(h: Hash): Coins
  {
    Coins(false, false, [NULL_OUT, TxOut(60000000000, ToKeyId(h))], 203998, 1)
  }

  lemma SixHundredCoins()
    ensures Compressed(60000000000) == 600
  {
    TensAre();
    hide Pow, Compressed, Decompressed;
    CompressedOfLarge(60);
  }

  lemma FirstItems(h: Hash)
    ensures var c := FirstRecord(h);
      !IsPruned(c) && Encode(c) == [Num(1), Num(8), Output(c.outs[1]), Num(203998)]
  {
    var c := FirstRecord(h);
    assert !IsNull(c.outs[1]);
    assert Masks(c.outs) == [];
    assert Nonzero([]) == 0;
    assert Avail(c.outs, 1) && !Avail(c.outs, 0);
    assert Outputs(c.outs, 0) == [];
    assert Outputs(c.outs, 1) == [];
    assert Outputs(c.outs, 2) == [Output(c.outs[1])];
  }

  lemma ItemsToBytes(c: Coins, k: Curve)
    requires CoinsFit(c)
    ensures AllFit(Encode(c)) && RecordBytes(c, k) == Bytes(Encode(c), k)
  {
    EncodingFits(c);
    hide CoinsFit, Encode, Bytes, AllFit;
  }

  lemma FourItems(a: Item, b: Item, c: Item, d: Item, k: Curve)
    requires Fits(a) && Fits(b) && Fits(c) && Fits(d)
    ensures AllFit([a, b, c, d])
    ensures Bytes([a, b, c, d], k) == ItemBytes(a, k) + (ItemBytes(b, k) + (ItemBytes(c, k) + ItemBytes(d, k)))
  {
    assert AllFit([a, b, c, d]) && AllFit([b, c, d]) && AllFit([c, d]);
    hide Fits, ItemBytes, AllFit, Bytes;
    assert [a, b, c, d] == [a] + [b, c, d] && [b, c, d] == [b] + [c, d] && [c, d] == [c] + [d];
    BytesOfCons(a, [b, c, d], k);
    BytesOfCons(b, [c, d], k);
    BytesOfCons(c, [d], k);
    BytesOfOne(d, k);
  }

  /** 0108 8358 00 hash 8bb85e: version, code, amount, kind of script, hash, height. */
  lemma FirstExample(h: Hash, k: Curve)
    ensures CoinsFit(FirstRecord(h))
    ensures RecordBytes(FirstRecord(h), k) == [0x01, 0x08, 0x83, 0x58, 0x00] + h + [0x8b, 0xb8, 0x5e]
  {
    hide *;
    var c := FirstRecord(h);
    FirstItems(h);
    FirstFits(h);
    ItemsToBytes(c, k);
    FirstParts(h, k);
    FourItems(Num(1), Num(8), Output(c.outs[1]), Num(203998), k);
    FirstJoined(h);
  }

  lemma FirstParts(h: Hash, k: Curve)
    ensures |FirstRecord(h).outs| == 2
    ensures var o := Output(FirstRecord(h).outs[1]);
      && Fits(Num(1)) && Fits(Num(8)) && Fits(o) && Fits(Num(203998))
      && ItemBytes(Num(1), k) == [0x01] && ItemBytes(Num(8), k) == [0x08]
      && ItemBytes(o, k) == [0x83, 0x58] + ([0] + h) && ItemBytes(Num(203998), k) == [0x8b, 0xb8, 0x5e]
  {
    hide *;
    TheOutput(h);
    SixHundredCoins();
    TwoBytes(0x83, 0x58);
    ThreeBytes(0x8b, 0xb8, 0x5e);
    OneByte(0x01);
    OneByte(0x08);
    FirstEncodings();
    OutputItem(60000000000, h, 600, [0x83, 0x58], k);
    NumberItem(1, [0x01], k);
    NumberItem(8, [0x08], k);
    NumberItem(203998, [0x8b, 0xb8, 0x5e], k);
  }

  lemma TheOutput(h: Hash)
    ensures |FirstRecord(h).outs| == 2 && FirstRecord(h).outs[1] == TxOut(60000000000, ToKeyId(h))
    ensures U32 == 0x1_0000_0000 && U64 == 0x1_0000_0000_0000_0000 && MAX_MONEY_OUT == 100000000 * 100000000
  {
  }

  lemma FirstEncodings()
    ensures IsEncoding([0x83, 0x58]) && IsEncoding([0x8b, 0xb8, 0x5e])
  {
  }

  lemma FirstJoined(h: Hash)
    ensures [0x01] + ([0x08] + (([0x83, 0x58] + ([0] + h)) + [0x8b, 0xb8, 0x5e]))
      == [0x01, 0x08, 0x83, 0x58, 0x00] + h + [0x8b, 0xb8, 0x5e]
  {
  }

  lemma FirstFits(h: Hash)
    ensures CoinsFit(FirstRecord(h))
  {
    FirstItems(h);
    EncodingFits(FirstRecord(h));
    hide CoinsFit, Encode;
  }

  // ----- the second record: a coinbase with the fifth and the seventeenth output

  function SecondRecord(g: Hash, h: Hash): Coins
  {
    Coins(true, false, SecondOuts(TxOut(234925952, ToKeyId(g)), TxOut(110397, ToKeyId(h))), 120891, 1)
  }

  function SecondOuts(a: TxOut, b: TxOut): (outs: seq<TxOut>)
    ensures |outs| == 17
  {
    seq(17, i => if i == 4 then a else if i == 16 then b else NULL_OUT)
  }

  lemma TwoAmounts()
    ensures Compressed(234925952) == 2114333561 && Compressed(110397) == 993571
  {
    TensAre();
    hide Pow, Compressed, Decompressed;
    CompressedIs(23492595, 2, 0);
    CompressedIs(11039, 7, 0);
  }

  lemma TwoMasks(a: TxOut, b: TxOut)
    requires !IsNull(a) && !IsNull(b)
    ensures Masks(SecondOuts(a, b)) == [4, 64]
  {
    var outs := SecondOuts(a, b);
    MaskIsSum(outs, 0);
    MaskIsSum(outs, 1);
    FirstMaskSum(a, b);
    SecondMaskSum(a, b);
    hide MaskByte, UnspentSum, SecondOuts;
    assert (MaskByte(outs, 0) as nat) == 4 && (MaskByte(outs, 1) as nat) == 64;
    BitsOfByte(MaskByte(outs, 0));
    BitsOfByte(MaskByte(outs, 1));
    assert ByteCount(outs) == 2;
    UsedIs(outs, 2, 2);
  }

  lemma FirstMaskSum(a: TxOut, b: TxOut)
    requires !IsNull(a) && !IsNull(b)
    ensures UnspentSum(SecondOuts(a, b), 0, 8) == 4
  {
    var outs := SecondOuts(a, b);
    Weights(2);
    hide Pow;
    assert UnspentSum(outs, 0, 0) == 0;
    assert UnspentSum(outs, 0, 1) == 0;
    assert UnspentSum(outs, 0, 2) == 0;
    assert UnspentSum(outs, 0, 3) == 4;
    assert UnspentSum(outs, 0, 5) == 4;
    assert UnspentSum(outs, 0, 7) == 4;
  }

  lemma SecondMaskSum(a: TxOut, b: TxOut)
    requires !IsNull(a) && !IsNull(b)
    ensures UnspentSum(SecondOuts(a, b), 1, 8) == 64
  {
    var outs := SecondOuts(a, b);
    Weights(6);
    hide Pow;
    assert UnspentSum(outs, 1, 0) == 0;
    assert UnspentSum(outs, 1, 1) == 0;
    assert UnspentSum(outs, 1, 2) == 0;
    assert UnspentSum(outs, 1, 4) == 0;
    assert UnspentSum(outs, 1, 6) == 0;
    assert UnspentSum(outs, 1, 7) == 64;
  }

  lemma TwoOutputs(a: TxOut, b: TxOut)
    requires !IsNull(a) && !IsNull(b)
    ensures Outputs(SecondOuts(a, b), 17) == [Output(a), Output(b)]
  {
    var outs := SecondOuts(a, b);
    OutputsBeyond(outs, 0, 4);
    OutputsBeyond(outs, 5, 16);
    hide SecondOuts;
    assert Outputs(outs, 0) == [];
    assert outs[4] == a && outs[16] == b;
  }

  lemma SecondItems(g: Hash, h: Hash)
    ensures var c := SecondRecord(g, h);
      && |c.outs| == 17 && !IsPruned(c) && c.outs[4] == TxOut(234925952, ToKeyId(g)) && c.outs[16] == TxOut(110397, ToKeyId(h))
      && Encode(c) == [Num(1), Num(17), Mask(4), Mask(64), Output(c.outs[4]), Output(c.outs[16]), Num(120891)]
  {
    var c := SecondRecord(g, h);
    TwoMasks(TxOut(234925952, ToKeyId(g)), TxOut(110397, ToKeyId(h)));
    TwoOutputs(TxOut(234925952, ToKeyId(g)), TxOut(110397, ToKeyId(h)));
    assert !IsNull(c.outs[4]);
    SecondCode(c);
    hide Masks, Outputs, Code, ToKeyId;
    assert MaskItems([4, 64]) == [Mask(4), Mask(64)];
  }

  lemma SecondCode(c: Coins)
    requires !IsPruned(c) && |c.outs| > 1 && c.outs[0] == c.outs[1] == NULL_OUT && Masks(c.outs) == [4, 64]
    requires c.coinBase && !c.coinStake
    ensures Code(c) == 17
  {
    var masks: seq<bv8> := [4, 64];
    assert masks[1..] == [64 as bv8] && masks[1..][1..] == [];
    assert Nonzero(masks) == 2;
    hide Masks, Nonzero;
  }

  lemma SevenItems(s: Stream, k: Curve)
    requires |s| == 7 && AllFit(s)
    ensures Bytes(s, k) == ItemBytes(s[0], k) + (ItemBytes(s[1], k) + (ItemBytes(s[2], k) + (ItemBytes(s[3], k)
      + (ItemBytes(s[4], k) + (ItemBytes(s[5], k) + ItemBytes(s[6], k))))))
  {
    hide Fits, ItemBytes, AllFit, Bytes;
    assert s == [s[0]] + s[1..] && s[1..] == [s[1]] + s[2..] && s[2..] == [s[2]] + s[3..];
    assert s[3..] == [s[3], s[4], s[5], s[6]];
    BytesOfCons(s[0], s[1..], k);
    BytesOfCons(s[1], s[2..], k);
    BytesOfCons(s[2], s[3..], k);
    FitsInParts(s[..3], s[3..]);
    assert s == s[..3] + s[3..];
    FitEach(s[3], s[4], s[5], s[6]);
    FourItems(s[3], s[4], s[5], s[6], k);
  }

  lemma FitEach(a: Item, b: Item, c: Item, d: Item)
    requires AllFit([a, b, c, d])
    ensures Fits(a) && Fits(b) && Fits(c) && Fits(d)
  {
    assert [a, b, c, d][0] == a && [a, b, c, d][1] == b && [a, b, c, d][2] == c && [a, b, c, d][3] == d;
  }

  /** 0111 0440 86ef97d579 00 hash bbd123 00 hash 86af3b: version, code, mask, the two outputs, height. */
  lemma SecondExample(g: Hash, h: Hash, k: Curve)
    ensures CoinsFit(SecondRecord(g, h))
    ensures RecordBytes(SecondRecord(g, h), k) == [0x01, 0x11, 0x04, 0x40, 0x86, 0xef, 0x97, 0xd5, 0x79, 0x00] + g
      + [0xbb, 0xd1, 0x23, 0x00] + h + [0x86, 0xaf, 0x3b]
  {
    hide *;
    var c := SecondRecord(g, h);
    SecondItems(g, h);
    SecondParts(g, h, k);
    var s := [Num(1), Num(17), Mask(4), Mask(64), Output(c.outs[4]), Output(c.outs[16]), Num(120891)];
    SevenFit(s);
    EncodingFits(c);
    ItemsToBytes(c, k);
    SevenItems(s, k);
    SecondJoined(g, h);
  }

  lemma SevenFit(s: Stream)
    requires |s| == 7 && Fits(s[0]) && Fits(s[1]) && Fits(s[2]) && Fits(s[3]) && Fits(s[4]) && Fits(s[5]) && Fits(s[6])
    ensures AllFit(s)
  {
    hide Fits;
  }

  lemma SecondParts(g: Hash, h: Hash, k: Curve)
    ensures var o, p := Output(TxOut(234925952, ToKeyId(g))), Output(TxOut(110397, ToKeyId(h)));
      && Fits(Num(1)) && Fits(Num(17)) && Fits(Mask(4)) && Fits(Mask(64)) && Fits(o) && Fits(p) && Fits(Num(120891))
      && ItemBytes(Num(1), k) == [0x01] && ItemBytes(Num(17), k) == [0x11]
      && ItemBytes(Mask(4), k) == [0x04] && ItemBytes(Mask(64), k) == [0x40]
      && ItemBytes(o, k) == [0x86, 0xef, 0x97, 0xd5, 0x79] + ([0] + g) && ItemBytes(p, k) == [0xbb, 0xd1, 0x23] + ([0] + h)
      && ItemBytes(Num(120891), k) == [0x86, 0xaf, 0x3b]
  {
    hide *;
    TheOutput(g);
    TwoAmounts();
    OneByte(0x01);
    OneByte(0x11);
    FiveBytes(0x86, 0xef, 0x97, 0xd5, 0x79);
    ThreeBytes(0xbb, 0xd1, 0x23);
    ThreeBytes(0x86, 0xaf, 0x3b);
    SecondEncodings();
    NumberItem(1, [0x01], k);
    NumberItem(17, [0x11], k);
    OutputItem(234925952, g, 2114333561, [0x86, 0xef, 0x97, 0xd5, 0x79], k);
    OutputItem(110397, h, 993571, [0xbb, 0xd1, 0x23], k);
    NumberItem(120891, [0x86, 0xaf, 0x3b], k);
    MaskItemsAre(k);
  }

  lemma SecondEncodings()
    ensures IsEncoding([0x86, 0xef, 0x97, 0xd5, 0x79]) && IsEncoding([0xbb, 0xd1, 0x23]) && IsEncoding([0x86, 0xaf, 0x3b])
  {
  }

  lemma MaskItemsAre(k: Curve)
    ensures Fits(Mask(4)) && Fits(Mask(64)) && ItemBytes(Mask(4), k) == [0x04] && ItemBytes(Mask(64), k) == [0x40]
  {
  }

  lemma SecondJoined(g: Hash, h: Hash)
    ensures [0x01] + ([0x11] + ([0x04] + ([0x40] + (([0x86, 0xef, 0x97, 0xd5, 0x79] + ([0] + g))
      + (([0xbb, 0xd1, 0x23] + ([0] + h)) + [0x86, 0xaf, 0x3b])))))
      == [0x01, 0x11, 0x04, 0x40, 0x86, 0xef, 0x97, 0xd5, 0x79, 0x00] + g + [0xbb, 0xd1, 0x23, 0x00] + h + [0x86, 0xaf, 0x3b]
  {
  }
}
