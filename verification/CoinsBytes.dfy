/**
 * The bytes of a coin record: its numbers as variable-length integers, its mask bytes, and its outputs compressed.
 */
module CoinsBytes {
  import opened Coins
  import opened CoinsCodec
  import opened Compressor
  import opened VarInt
  import opened Wrappers

  // ----- writing

  /** The output is worth no more than all the money there may be, and the length of its script fits. */
  predicate IsPayable(o: TxOut)
  {
    0 <= o.value <= MAX_MONEY_OUT && |o.script| + SPECIAL_SCRIPTS < U32
  }

  predicate Fits(i: Item)
  {
    match i
    case Num(n) => n < U32
    case Mask(_) => true
    case Output(o) => IsPayable(o)
  }

  predicate AllFit(s: Stream)
  {
    forall i :: 0 <= i < |s| ==> Fits(s[i])
  }

  function ByteOf(m: bv8): Byte
  {
    m as Byte
  }

  function BitsOf(b: Byte): bv8
  {
    b as bv8
  }

  lemma BitsOfByte(m: bv8)
    ensures BitsOf(ByteOf(m)) == m
  {
  }

  lemma NextByte(m: bv8)
    requires ByteOf(m) < 255
    ensures ByteOf(m + 1) == ByteOf(m) + 1
  {
  }

  lemma SomeBits(b: Byte) returns (m: bv8)
    ensures ByteOf(m) == b
  {
    m := 0;
    if b > 0 {
      hide ByteOf;
      m := SomeBits(b - 1);
      NextByte(m);
      m := m + 1;
    }
  }

  lemma ByteOfBits(b: Byte)
    ensures ByteOf(BitsOf(b)) == b
  {
    hide ByteOf, BitsOf;
    var m := SomeBits(b);
    BitsOfByte(m);
  }

  function ItemBytes(i: Item, k: Curve): seq<Byte>
    requires Fits(i)
  {
    match i
    case Num(n) => Encoded(n, true)
    case Mask(m) => [ByteOf(m)]
    case Output(o) => OutputBytes(o.value, o.script, k)
  }

  function Bytes(s: Stream, k: Curve): seq<Byte>
    requires AllFit(s)
  {
    if s == [] then [] else ItemBytes(s[0], k) + Bytes(s[1..], k)
  }

  /** Numbers have 32 bits, and unspent outputs are payable. */
  predicate CoinsFit(c: Coins)
  {
    && !IsPruned(c) && c.version < U32 && c.height < U32 && Code(c) < U32
    && forall i :: 0 <= i < |c.outs| && !IsNull(c.outs[i]) ==> IsPayable(c.outs[i])
  }

  lemma {:induction false} OutputsFit(outs: seq<TxOut>, n: nat)
    requires n <= |outs|
    ensures AllFit(Outputs(outs, n)) <==> forall i :: 0 <= i < n && !IsNull(outs[i]) ==> IsPayable(outs[i])
  {
    hide IsPayable;
    if n > 0 {
      OutputsFit(outs, n - 1);
      if Avail(outs, n - 1) { FitsWithLast(Outputs(outs, n - 1), Output(outs[n - 1])); }
    }
  }

  lemma FitsWithLast(s: Stream, i: Item)
    ensures AllFit(s + [i]) <==> AllFit(s) && Fits(i)
  {
    hide Fits;
    assert (s + [i])[|s|] == i;
    if AllFit(s + [i]) {
      forall j | 0 <= j < |s| ensures Fits(s[j]) { assert (s + [i])[j] == s[j]; }
    }
  }

  lemma FitsInParts(a: Stream, b: Stream)
    ensures AllFit(a + b) <==> AllFit(a) && AllFit(b)
  {
    hide Fits;
    if AllFit(a + b) {
      forall j | 0 <= j < |a| ensures Fits(a[j]) { assert (a + b)[j] == a[j]; }
      forall j | 0 <= j < |b| ensures Fits(b[j]) { assert (a + b)[|a| + j] == b[j]; }
    }
  }

  lemma EncodingFits(c: Coins)
    requires !IsPruned(c)
    ensures CoinsFit(c) <==> AllFit(Encode(c))
  {
    hide IsPruned, IsPayable, Code, Masks, Outputs;
    OutputsFit(c.outs, |c.outs|);
    var head, masks, outs := [Num(c.version), Num(Code(c))], MaskItems(Masks(c.outs)), Outputs(c.outs, |c.outs|);
    FitsInParts(head + masks + outs, [Num(c.height)]);
    FitsInParts(head + masks, outs);
    FitsInParts(head, masks);
    NumbersFit([Num(c.height)]);
    NumbersFit(head);
  }

  lemma NumbersFit(s: Stream)
    requires s != [] && |s| <= 2 && s[0].Num? && s[|s| - 1].Num?
    ensures AllFit(s) <==> s[0].n < U32 && s[|s| - 1].n < U32
  {
  }

  function RecordBytes(c: Coins, k: Curve): seq<Byte>
    requires CoinsFit(c)
  {
    EncodingFits(c);
    Bytes(Encode(c), k)
  }

  // ----- reading

  /** Reads mask bytes until `n` of them were not zero. */
  function ReadMaskBytes(s: seq<Byte>, n: nat): (r: Option<(seq<bv8>, seq<Byte>)>)
    decreases |s|
  {
    if n == 0 then Some(([], s))
    else if s == [] then None
    else
      match ReadMaskBytes(s[1..], n - (if BitsOf(s[0]) != 0 then 1 else 0))
      case None => None
      case Some((masks, rest)) => Some(([BitsOf(s[0])] + masks, rest))
  }

  /** An output as it is read into a null one, which has no script. */
  function ReadOutput(s: seq<Byte>, k: Curve): Option<(TxOut, seq<Byte>)>
  {
    match OutputOf(s, [], k)
    case None => None
    case Some((value, script, rest)) => Some((TxOut(Signed(value), script), rest))
  }

  function ReadOutputBytes(avail: seq<bool>, s: seq<Byte>, k: Curve): (r: Option<(seq<TxOut>, seq<Byte>)>)
    ensures r.Some? ==> |r.value.0| == |avail|
  {
    if avail == [] then Some(([], s))
    else
      match ReadOutputBytes(avail[..|avail| - 1], s, k)
      case None => None
      case Some((outs, rest)) =>
        if !avail[|avail| - 1] then Some((outs + [NULL_OUT], rest))
        else
          match ReadOutput(rest, k)
          case None => None
          case Some((o, rest1)) => Some((outs + [o], rest1))
  }

  /** Reads a record from bytes; its numbers are cut to 32 bits. */
  function RecordOf(s: seq<Byte>, k: Curve): Option<(Coins, seq<Byte>)>
  {
    match ReadOn(0, s)
    case None => None
    case Some((version, s1)) =>
      match ReadOn(0, s1)
      case None => None
      case Some((number, s2)) =>
        var code := number % U32;
        match ReadMaskBytes(s2, MaskCode(code))
        case None => None
        case Some((masks, s3)) =>
          match ReadOutputBytes([Flag(code, 4), Flag(code, 8)] + MaskFlags(masks), s3, k)
          case None => None
          case Some((outs, s4)) =>
            match ReadOn(0, s4)
            case None => None
            case Some((height, rest)) =>
              Some((Trim(Coins(Flag(code, 1), Flag(code, 2), outs, height % U32, version % U32)), rest))
  }

  // ----- which records are as they would be written

  /** No bits of the amount are lost, and the script is in the form in which it would be written. */
  ghost predicate IsPlainOutput(s: seq<Byte>, k: Curve)
    requires ReadOutput(s, k).Some?
  {
    var (x, t) := ReadOn(0, s).value;
    x < U64 && Decompressed(x) < U64 && IsPlainlyRead(t, [], k)
  }

  ghost predicate ArePlainOutputs(avail: seq<bool>, s: seq<Byte>, k: Curve)
    requires ReadOutputBytes(avail, s, k).Some?
  {
    avail == [] ||
    var before := avail[..|avail| - 1];
    ArePlainOutputs(before, s, k) && (avail[|avail| - 1] ==> IsPlainOutput(ReadOutputBytes(before, s, k).value.1, k))
  }

  /** No number has more than 32 bits, and all outputs are plain. */
  ghost predicate IsPlainRecord(s: seq<Byte>, k: Curve)
    requires RecordOf(s, k).Some?
  {
    var (version, s1) := ReadOn(0, s).value;
    var (code, s2) := ReadOn(0, s1).value;
    var (masks, s3) := ReadMaskBytes(s2, MaskCode(code % U32)).value;
    var avail := [Flag(code % U32, 4), Flag(code % U32, 8)] + MaskFlags(masks);
    var height := ReadOn(0, ReadOutputBytes(avail, s3, k).value.1).value.0;
    version < U32 && code < U32 && height < U32 && ArePlainOutputs(avail, s3, k)
  }

  // ----- reading what was written

  lemma BytesOfFirst(s: Stream, t: seq<Byte>, k: Curve)
    requires s != [] && AllFit(s)
    ensures Bytes(s, k) + t == ItemBytes(s[0], k) + (Bytes(s[1..], k) + t)
  {
    hide ItemBytes;
  }

  lemma NumberFollows(s: Stream, t: seq<Byte>, k: Curve)
    requires s != [] && s[0].Num? && AllFit(s)
    ensures ReadOn(0, Bytes(s, k) + t) == Some((s[0].n, Bytes(s[1..], k) + t))
  {
    hide ReadOn, Encoded;
    BytesOfFirst(s, t, k);
    ReadWritten(s[0].n, Bytes(s[1..], k) + t);
  }

  lemma OutputFollows(s: Stream, t: seq<Byte>, k: Curve)
    requires IsCurve(k) && s != [] && s[0].Output? && AllFit(s)
    ensures ReadOutput(Bytes(s, k) + t, k) == Some((s[0].out, Bytes(s[1..], k) + t))
    ensures IsPlainOutput(Bytes(s, k) + t, k)
  {
    hide OutputBytes, OutputOf, IsCurve;
    var o, rest := s[0].out, Bytes(s[1..], k) + t;
    assert Fits(s[0]);
    BytesOfFirst(s, t, k);
    OutputRoundTrip(o.value, o.script, rest, [], k);
    OutputIsPlain(o, rest, k);
  }

  lemma OutputIsPlain(o: TxOut, rest: seq<Byte>, k: Curve)
    requires IsCurve(k) && IsPayable(o)
    ensures ReadOutput(OutputBytes(o.value, o.script, k) + rest, k).Some?
    ensures IsPlainOutput(OutputBytes(o.value, o.script, k) + rest, k)
  {
    hide Encoded, Compressed, Decompressed, Encoding, Decoding, IsCurve, ReadOn, IsPlainlyRead;
    CompressedBound(o.value);
    DecompressCompressed(o.value);
    var t := Encoding(o.script, k) + rest;
    ReadWritten(Compressed(o.value), t);
    assert OutputBytes(o.value, o.script, k) + rest == Encoded(Compressed(o.value), true) + t;
    ScriptRoundTrip(o.script, rest, [], k);
    ScriptReadIsExact(t, [], k);
  }

  lemma {:induction false} MasksFollow(s: Stream, n: nat, t: seq<Byte>, k: Curve)
    requires AllFit(s) && ReadMasks(s, n).Some?
    ensures var (masks, rest) := ReadMasks(s, n).value;
      AllFit(rest) && ReadMaskBytes(Bytes(s, k) + t, n) == Some((masks, Bytes(rest, k) + t))
    decreases |s|
  {
    if n > 0 {
      ReadMasksStep(s, n);
      hide ReadMasks, Bytes;
      var m := n - (if s[0].bits != 0 then 1 else 0);
      MasksFollow(s[1..], m, t, k);
      BytesOfFirst(s, t, k);
      MaskByteIsRead(s[0].bits, Bytes(s[1..], k) + t, n);
    }
  }

  lemma MaskByteIsRead(m: bv8, s: seq<Byte>, n: nat)
    requires n > 0
    ensures ReadMaskBytes([ByteOf(m)] + s, n) == match ReadMaskBytes(s, n - (if m != 0 then 1 else 0))
                                                 case None => None
                                                 case Some((masks, rest)) => Some(([m] + masks, rest))
  {
    hide ByteOf, BitsOf;
    BitsOfByte(m);
    assert ([ByteOf(m)] + s)[1..] == s;
  }

  lemma {:induction false} OutputsFollow(avail: seq<bool>, s: Stream, t: seq<Byte>, k: Curve)
    requires IsCurve(k) && AllFit(s) && ReadOutputs(avail, s).Some?
    ensures var (outs, rest) := ReadOutputs(avail, s).value;
      AllFit(rest) && ReadOutputBytes(avail, Bytes(s, k) + t, k) == Some((outs, Bytes(rest, k) + t))
    ensures ArePlainOutputs(avail, Bytes(s, k) + t, k)
  {
    hide IsCurve, Bytes, ReadOutput, IsPlainOutput;
    if avail != [] {
      var n := |avail| - 1;
      OutputsFollow(avail[..n], s, t, k);
      var (outs, rest) := ReadOutputs(avail[..n], s).value;
      if avail[n] { OutputFollows(rest, t, k); }
    }
  }

  /** Whatever is read of a stream's items is read of its bytes. */
  lemma RecordFollows(s: Stream, t: seq<Byte>, k: Curve)
    requires IsCurve(k) && AllFit(s) && Decode(s).Some?
    ensures var (c, rest) := Decode(s).value;
      AllFit(rest) && RecordOf(Bytes(s, k) + t, k) == Some((c, Bytes(rest, k) + t))
    ensures IsPlainRecord(Bytes(s, k) + t, k)
  {
    hide IsCurve, Bytes, ReadMasks, ReadOutputs, ReadMaskBytes, ReadOutputBytes, Flag, MaskFlags, TrimOuts, ReadOn,
         ArePlainOutputs;
    NumberFollows(s, t, k);
    NumberFollows(s[1..], t, k);
    assert s[1..][1..] == s[2..];
    var code := s[1].n;
    var (masks, s1) := ReadMasks(s[2..], MaskCode(code)).value;
    MasksFollow(s[2..], MaskCode(code), t, k);
    var avail := [Flag(code, 4), Flag(code, 8)] + MaskFlags(masks);
    var (outs, s2) := ReadOutputs(avail, s1).value;
    OutputsFollow(avail, s1, t, k);
    NumberFollows(s2, t, k);
  }

  /** Coins that are written are read back from their bytes, cleaned up, whatever follows. */
  lemma RecordRoundTrip(c: Coins, t: seq<Byte>, k: Curve)
    requires IsCurve(k) && CoinsFit(c)
    ensures RecordOf(RecordBytes(c, k) + t, k) == Some((Clean(c), t))
    ensures IsPlainRecord(RecordBytes(c, k) + t, k)
  {
    hide IsCurve, Decode, Encode, Clean;
    EncodingFits(c);
    DecodeEncoded(c, []);
    assert Encode(c) + [] == Encode(c);
    RecordFollows(Encode(c), t, k);
    assert Bytes([], k) + t == t;
  }

  // ----- whatever can be read

  /** An output that was read can be read, its script is short enough, and it was written so if it is plain. */
  lemma OutputWasRead(s: seq<Byte>, k: Curve)
    requires IsCurve(k) && ReadOutput(s, k).Some?
    ensures var (o, rest) := ReadOutput(s, k).value;
      && CanBeRead(o) && |o.script| + SPECIAL_SCRIPTS < U32
      && (IsPayable(o) && IsPlainOutput(s, k) ==> s == OutputBytes(o.value, o.script, k) + rest)
  {
    hide Encoded, Compressed, Decompressed, Encoding, Decoding, IsCurve, ReadOn, IsPlainlyRead;
    var (x, t) := ReadOn(0, s).value;
    var (o, rest) := ReadOutput(s, k).value;
    var y := x % U64;
    assert o.value == Signed(Decompressed(y) % U64);
    ScriptIsShort(t, k);
    if IsPayable(o) && IsPlainOutput(s, k) {
      CompressDecompressed(x);
      ReadIsExact(s, x, t);
      ScriptReadIsExact(t, [], k);
      assert s == Encoded(x, true) + (Encoding(o.script, k) + rest);
    }
  }

  lemma ScriptIsShort(s: seq<Byte>, k: Curve)
    requires IsCurve(k) && Decoding(s, [], k).Some?
    ensures |Decoding(s, [], k).value.0| + SPECIAL_SCRIPTS < U32
  {
    hide ReadOn;
  }

  lemma BytesOfCons(i: Item, s: Stream, k: Curve)
    requires AllFit([i] + s)
    ensures Fits(i) && AllFit(s) && Bytes([i] + s, k) == ItemBytes(i, k) + Bytes(s, k)
  {
    FitsInParts([i], s);
    hide Fits, ItemBytes;
    assert ([i] + s)[0] == i && ([i] + s)[1..] == s;
  }

  lemma {:induction false} BytesOfParts(a: Stream, b: Stream, k: Curve)
    requires AllFit(a) && AllFit(b)
    ensures AllFit(a + b) && Bytes(a + b, k) == Bytes(a, k) + Bytes(b, k)
  {
    FitsInParts(a, b);
    hide Fits, ItemBytes, AllFit;
    if a == [] {
      assert a + b == b;
    } else {
      hide Bytes;
      var i, s := a[0], a[1..];
      assert a == [i] + s && a + b == [i] + (s + b);
      BytesOfCons(i, s, k);
      BytesOfParts(s, b, k);
      BytesOfCons(i, s + b, k);
    }
  }

  lemma BytesOfOne(i: Item, k: Curve)
    requires Fits(i)
    ensures AllFit([i]) && Bytes([i], k) == ItemBytes(i, k)
  {
    hide ItemBytes;
    assert Bytes([], k) == [];
  }

  /** The mask bytes that were read, as items. */
  lemma {:induction false} MasksWereRead(b: seq<Byte>, n: nat, s: Stream, k: Curve)
    requires ReadMaskBytes(b, n).Some?
    ensures var (masks, rest) := ReadMaskBytes(b, n).value; var items := MaskItems(masks);
      AllFit(items) && b == Bytes(items, k) + rest && ReadMasks(items + s, n) == Some((masks, s))
    decreases |b|
  {
    hide MaskItems, ReadMasks, AllFit, Bytes;
    ReadNoMasks(s);
    NoBytes(k);
    if n > 0 {
      hide ByteOf, BitsOf;
      var m := BitsOf(b[0]);
      MasksWereRead(b[1..], n - (if m != 0 then 1 else 0), s, k);
      var (masks, rest) := ReadMaskBytes(b[1..], n - (if m != 0 then 1 else 0)).value;
      MaskWasRead(b, masks, rest, k);
      assert [Mask(m)] + MaskItems(masks) + s == [Mask(m)] + (MaskItems(masks) + s);
      MaskItemsCons(m, masks);
      ReadMasksOfFirst(m, MaskItems(masks) + s, n);
    }
  }

  lemma NoBytes(k: Curve)
    ensures MaskItems([]) == [] && AllFit([]) && Bytes([], k) == []
  {
  }

  lemma MaskWasRead(b: seq<Byte>, masks: seq<bv8>, rest: seq<Byte>, k: Curve)
    requires b != [] && AllFit(MaskItems(masks)) && b[1..] == Bytes(MaskItems(masks), k) + rest
    ensures var items := MaskItems([BitsOf(b[0])] + masks); AllFit(items) && b == Bytes(items, k) + rest
  {
    hide MaskItems, AllFit, Bytes, ByteOf, BitsOf;
    var m, items := BitsOf(b[0]), MaskItems(masks);
    MaskItemsCons(m, masks);
    ByteOfBits(b[0]);
    BytesOfOne(Mask(m), k);
    BytesOfParts([Mask(m)], items, k);
    assert b == [b[0]] + (Bytes(items, k) + rest);
  }

  /** The outputs that were read from the stream. */
  function Taken(avail: seq<bool>, outs: seq<TxOut>): Stream
    requires |avail| == |outs|
  {
    if avail == [] then []
    else
      var n := |avail| - 1;
      Taken(avail[..n], outs[..n]) + (if avail[n] then [Output(outs[n])] else [])
  }

  /** No output is worth less than nothing or more than all the money there may be. */
  ghost predicate IsMoney(s: Stream)
  {
    forall i :: 0 <= i < |s| && s[i].Output? ==> 0 <= s[i].out.value <= MAX_MONEY_OUT
  }

  /** The outputs that were read, as items: they can be read, and fit and are what was read if they are worth money. */
  ghost predicate WereOutputs(items: Stream, avail: seq<bool>, b: seq<Byte>, k: Curve)
    requires ReadOutputBytes(avail, b, k).Some?
  {
    && AllCanBeRead(items)
    && (IsMoney(items) ==> AllFit(items) && (ArePlainOutputs(avail, b, k) ==> b == Bytes(items, k) + ReadOutputBytes(avail, b, k).value.1))
  }

  lemma {:induction false} OutputsWereRead(avail: seq<bool>, b: seq<Byte>, s: Stream, k: Curve)
    requires IsCurve(k) && ReadOutputBytes(avail, b, k).Some?
    ensures var (outs, _) := ReadOutputBytes(avail, b, k).value;
      WereOutputs(Taken(avail, outs), avail, b, k) && ReadOutputs(avail, Taken(avail, outs) + s) == Some((outs, s))
  {
    var (outs, rest) := ReadOutputBytes(avail, b, k).value;
    if avail == [] {
      assert [] + s == s && [] + b == b;
    } else {
      hide IsCurve, ReadOutput, IsPlainOutput, WereOutputs;
      var n := |avail| - 1;
      var (outs1, rest1) := ReadOutputBytes(avail[..n], b, k).value;
      var before := Taken(avail[..n], outs1);
      assert outs[..n] == outs1;
      if avail[n] {
        var next := [Output(outs[n])];
        OutputsWereRead(avail[..n], b, next + s, k);
        assert before + next + s == before + (next + s);
        assert (next + s)[1..] == s;
        OneMoreWasRead(avail, b, before, k);
      } else {
        OutputsWereRead(avail[..n], b, s, k);
        assert before + [] == before;
        assert WereOutputs(before, avail, b, k) by { NoMoreWasRead(avail, b, before, k); }
      }
    }
  }

  lemma NoMoreWasRead(avail: seq<bool>, b: seq<Byte>, before: Stream, k: Curve)
    requires avail != [] && !avail[|avail| - 1] && ReadOutputBytes(avail, b, k).Some?
    requires WereOutputs(before, avail[..|avail| - 1], b, k)
    ensures WereOutputs(before, avail, b, k)
  {
    hide AllCanBeRead, IsMoney, AllFit, Bytes;
  }

  lemma OneMoreWasRead(avail: seq<bool>, b: seq<Byte>, before: Stream, k: Curve)
    requires IsCurve(k) && avail != [] && avail[|avail| - 1] && ReadOutputBytes(avail, b, k).Some?
    requires WereOutputs(before, avail[..|avail| - 1], b, k)
    ensures WereOutputs(before + [Output(ReadOutputBytes(avail, b, k).value.0[|avail| - 1])], avail, b, k)
  {
    hide IsCurve, ReadOutput, IsPlainOutput, Bytes, CanBeRead, OutputBytes;
    var n := |avail| - 1;
    var (outs1, rest1) := ReadOutputBytes(avail[..n], b, k).value;
    var (outs, rest) := ReadOutputBytes(avail, b, k).value;
    var last := Output(outs[n]);
    OutputWasRead(rest1, k);
    var items := before + [last];
    assert items[|before|] == last;
    if IsMoney(items) {
      forall i | 0 <= i < |before| && before[i].Output? ensures 0 <= before[i].out.value <= MAX_MONEY_OUT {
        assert items[i] == before[i];
      }
      BytesOfOne(last, k);
      BytesOfParts(before, [last], k);
    }
  }

  /** The items of a record. */
  function RecordItems(version: nat, code: nat, masks: seq<bv8>, outputs: Stream, height: nat): Stream
  {
    [Num(version)] + ([Num(code)] + (MaskItems(masks) + (outputs + [Num(height)])))
  }

  lemma DecodedItems(version: nat, code: nat, masks: seq<bv8>, outputs: Stream, height: nat, outs: seq<TxOut>)
    requires var rest := outputs + [Num(height)];
      ReadMasks(MaskItems(masks) + rest, MaskCode(code)) == Some((masks, rest))
    requires ReadOutputs([Flag(code, 4), Flag(code, 8)] + MaskFlags(masks), outputs + [Num(height)])
      == Some((outs, [Num(height)]))
    ensures Decode(RecordItems(version, code, masks, outputs, height))
      == Some((Trim(Coins(Flag(code, 1), Flag(code, 2), outs, height, version)), []))
  {
    hide ReadMasks, ReadOutputs, Flag, MaskFlags, TrimOuts, MaskCode;
    var s := RecordItems(version, code, masks, outputs, height);
    assert s[2..] == MaskItems(masks) + (outputs + [Num(height)]);
  }

  lemma ItemsCanBeRead(version: nat, code: nat, masks: seq<bv8>, outputs: Stream, height: nat)
    ensures AllCanBeRead(outputs) ==> AllCanBeRead(RecordItems(version, code, masks, outputs, height))
    ensures IsMoney(RecordItems(version, code, masks, outputs, height)) ==> IsMoney(outputs)
  {
    hide CanBeRead;
    var s, at := RecordItems(version, code, masks, outputs, height), 2 + |masks|;
    assert forall i :: 0 <= i < |outputs| ==> s[at + i] == outputs[i];
    assert forall i :: 0 <= i < |s| && s[i].Output? ==> at <= i < at + |outputs| && s[i] == outputs[i - at];
  }

  lemma BytesOfItems(version: nat, code: nat, masks: seq<bv8>, outputs: Stream, height: nat, k: Curve)
    requires version < U32 && code < U32 && height < U32 && AllFit(outputs)
    ensures AllFit(MaskItems(masks)) && AllFit(RecordItems(version, code, masks, outputs, height))
    ensures Bytes(RecordItems(version, code, masks, outputs, height), k) == Encoded(version, true)
      + (Encoded(code, true) + (Bytes(MaskItems(masks), k) + (Bytes(outputs, k) + Encoded(height, true))))
  {
    var items := MaskItems(masks);
    assert AllFit(items);
    hide MaskItems, AllFit, Bytes, Encoded;
    BytesOfOne(Num(height), k);
    BytesOfParts(outputs, [Num(height)], k);
    BytesOfParts(items, outputs + [Num(height)], k);
    BytesOfOne(Num(code), k);
    BytesOfParts([Num(code)], items + (outputs + [Num(height)]), k);
    BytesOfOne(Num(version), k);
    BytesOfParts([Num(version)], [Num(code)] + (items + (outputs + [Num(height)])), k);
  }

  /** What was read comes from a stream of items; its bytes are what was read exactly if that is plain. */
  lemma RecordWasRead(b: seq<Byte>, k: Curve) returns (s: Stream)
    requires IsCurve(k) && RecordOf(b, k).Some?
    ensures AllCanBeRead(s) && Decode(s) == Some((RecordOf(b, k).value.0, []))
    ensures IsMoney(s) ==> AllFit(s) && (IsPlainRecord(b, k) ==> b == Bytes(s, k) + RecordOf(b, k).value.1)
  {
    hide IsCurve, ReadOn, ReadMaskBytes, ReadOutputBytes, ArePlainOutputs, ReadMasks, ReadOutputs, Flag, MaskFlags, MaskCode,
         TrimOuts, Taken, MaskItems, Bytes, AllFit, AllCanBeRead, IsMoney, Encoded, RecordItems, Decode;
    var (version, s1) := ReadOn(0, b).value;
    var (number, s2) := ReadOn(0, s1).value;
    var code := number % U32;
    var (masks, s3) := ReadMaskBytes(s2, MaskCode(code)).value;
    var avail := [Flag(code, 4), Flag(code, 8)] + MaskFlags(masks);
    var (outs, s4) := ReadOutputBytes(avail, s3, k).value;
    var (height, rest) := ReadOn(0, s4).value;
    var v, h, outputs := version % U32, height % U32, Taken(avail, outs);
    s := RecordItems(v, code, masks, outputs, h);
    MasksWereRead(s2, MaskCode(code), outputs + [Num(h)], k);
    OutputsWereRead(avail, s3, [Num(h)], k);
    DecodedItems(v, code, masks, outputs, h, outs);
    ItemsCanBeRead(v, code, masks, outputs, h);
    if IsMoney(s) {
      BytesOfItems(v, code, masks, outputs, h, k);
      if IsPlainRecord(b, k) {
        ReadIsExact(b, version, s1);
        ReadIsExact(s1, number, s2);
        ReadIsExact(s4, height, rest);
      }
    }
  }

  /** Whatever bytes can be read, the coins are clean and not pruned, and could be written if they are worth money. */
  lemma RecordIsClean(b: seq<Byte>, k: Curve)
    requires IsCurve(k) && RecordOf(b, k).Some?
    ensures var c := RecordOf(b, k).value.0;
      !IsPruned(c) && Clean(c) == c && (IsMoney(Encode(c)) ==> CoinsFit(c))
  {
    hide IsCurve, RecordOf, Decode, Encode, Clean, IsPruned, IsMoney, AllCanBeRead, AllFit, CoinsFit, IsPlainRecord, Bytes;
    var s := RecordWasRead(b, k);
    var c := RecordOf(b, k).value.0;
    DecodingIsExact(s, c, []);
    assert Encode(c) + [] == Encode(c);
    EncodingFits(c);
  }

  /**
   * The bytes of coins that are clean are exactly those from which they are read plainly, that is, without losing bits
   * of a number and without a script in a form in which it would not be written.
   */
  lemma RecordIsExact(b: seq<Byte>, c: Coins, t: seq<Byte>, k: Curve)
    requires IsCurve(k) && CoinsFit(c)
    ensures RecordOf(b, k) == Some((c, t)) && IsPlainRecord(b, k) <==> Clean(c) == c && b == RecordBytes(c, k) + t
  {
    hide IsCurve, RecordOf, Decode, Encode, Clean, IsMoney, AllCanBeRead, CoinsFit, IsPlainRecord, Bytes, AllFit;
    if RecordOf(b, k) == Some((c, t)) && IsPlainRecord(b, k) {
      var s := RecordWasRead(b, k);
      DecodingIsExact(s, c, []);
      assert Encode(c) + [] == Encode(c);
      EncodingFits(c);
      FittingIsMoney(s);
    }
    if Clean(c) == c && b == RecordBytes(c, k) + t { RecordRoundTrip(c, t, k); }
  }

  lemma FittingIsMoney(s: Stream)
    requires AllFit(s)
    ensures IsMoney(s)
  {
  }
}
