/** The compact forms of amounts and of output scripts. */
module Compressor {
  import opened Radix
  import opened VarInt
  import opened Wrappers

  // ----- amounts

  /** Divides by ten as often as that leaves no remainder, at most until the count is 9. */
  function Strip(n: nat, e: nat): (r: (nat, nat))
    requires n > 0 && e <= 9
    ensures r.0 > 0 && e <= r.1 <= 9 && (r.1 < 9 ==> r.0 % 10 != 0)
  {
    if n % 10 == 0 && e < 9 then Strip(n / 10, e + 1) else (n, e)
  }

  function Compressed(n: nat): nat
  {
    if n == 0 then 0
    else
      var (m, e) := Strip(n, 0);
      if e < 9 then 1 + (m / 10 * 9 + m % 10 - 1) * 10 + e else 1 + (m - 1) * 10 + 9
  }

  /** The digits that a compressed amount stands for, without the zeroes at the end. */
  function Mantissa(y: nat, e: nat): nat
  {
    if e < 9 then y / 9 * 10 + y % 9 + 1 else y + 1
  }

  function Decompressed(x: nat): nat
  {
    if x == 0 then 0 else Mantissa((x - 1) / 10, (x - 1) % 10) * Pow(10, (x - 1) % 10)
  }

  lemma {:induction false} StripIs(n: nat, e: nat)
    requires n > 0 && e <= 9
    ensures var (m, f) := Strip(n, e); n == m * Pow(10, f - e)
  {
    hide Pow;
    var (m, f) := Strip(n, e);
    if n % 10 == 0 && e < 9 {
      StripIs(n / 10, e + 1);
      TimesTen(n, n / 10, m, f - e - 1);
    } else {
      Zeroth(n);
    }
  }

  lemma TimesTen(n: nat, k: nat, m: nat, j: nat)
    requires n == 10 * k && k == m * Pow(10, j)
    ensures n == m * Pow(10, j + 1)
  {
    assert 10 * (m * Pow(10, j)) == m * (10 * Pow(10, j));
  }

  lemma {:induction false} StripOf(m: nat, e: nat, f: nat)
    requires m > 0 && e <= f <= 9 && (f < 9 ==> m % 10 != 0)
    ensures m * Pow(10, f - e) > 0 && Strip(m * Pow(10, f - e), e) == (m, f)
    decreases f - e
  {
    if e < f {
      StripOf(m, e + 1, f);
      var n := m * Pow(10, f - e - 1);
      assert m * Pow(10, f - e) == n * 10 by { assert m * (10 * Pow(10, f - e - 1)) == n * 10; }
      DivModOf(n, 0, 10);
    } else {
      assert m * Pow(10, 0) == m;
    }
  }

  /** Compressing the digits of an amount, and the other way round. */
  lemma MantissaAndBack(m: nat, e: nat)
    requires m > 0 && e < 9 && m % 10 != 0
    ensures Mantissa(m / 10 * 9 + m % 10 - 1, e) == m
  {
    DivModOf(m / 10, m % 10 - 1, 9);
  }

  lemma LastMantissa(m: nat)
    requires m > 0
    ensures Mantissa(m - 1, 9) == m
  {
  }

  lemma BackAndMantissa(y: nat, e: nat)
    requires e < 9
    ensures var m := Mantissa(y, e); m % 10 == y % 9 + 1 && m / 10 * 9 + m % 10 - 1 == y
  {
    DivModOf(y / 9, y % 9 + 1, 10);
    assert y == y / 9 * 9 + y % 9;
  }

  /** Every amount is restored from its compressed form. */
  lemma DecompressCompressed(n: nat)
    ensures Decompressed(Compressed(n)) == n
  {
    hide Pow, Mantissa;
    if n > 0 {
      StripIs(n, 0);
      var (m, e) := Strip(n, 0);
      if e < 9 {
        DivModOf(m / 10 * 9 + m % 10 - 1, e, 10);
        MantissaAndBack(m, e);
      } else {
        DivModOf(m - 1, 9, 10);
        LastMantissa(m);
      }
    }
  }

  /** Every number is the compressed form of the amount it stands for: the two are inverse bijections. */
  lemma CompressDecompressed(x: nat)
    ensures Compressed(Decompressed(x)) == x
  {
    if x > 0 {
      var y, e := (x - 1) / 10, (x - 1) % 10;
      var m := Mantissa(y, e);
      if e < 9 { BackAndMantissa(y, e); }
      StripOf(m, 0, e);
    }
  }

  /** The compressed form of an amount whose decimal digits end with `d` and then `e` zeroes, fewer than nine. */
  lemma CompressedIs(q: nat, d: nat, e: nat)
    requires 1 <= d <= 9 && e < 9
    ensures Compressed((10 * q + d) * Pow(10, e)) == 1 + 10 * (9 * q + d - 1) + e
    ensures Decompressed(1 + 10 * (9 * q + d - 1) + e) == (10 * q + d) * Pow(10, e)
  {
    hide *;
    var n := (10 * q + d) * Pow(10, e);
    LastDigit(q, d);
    StripOf(10 * q + d, 0, e);
    DecompressCompressed(n);
    CompressedByStrip(n, 10 * q + d, e);
  }

  lemma LastDigit(q: nat, d: nat)
    requires d <= 9
    ensures (10 * q + d) / 10 == q && (10 * q + d) % 10 == d
  {
    DivModOf(q, d, 10);
  }

  lemma CompressedByStrip(n: nat, m: nat, e: nat)
    requires n > 0 && Strip(n, 0) == (m, e)
    ensures m > 0 && Compressed(n) == if e < 9 then 1 + (m / 10 * 9 + m % 10 - 1) * 10 + e else 1 + (m - 1) * 10 + 9
  {
    hide Strip;
  }

  /** The compressed form of an amount that ends with nine zeroes or more, or is nothing. */
  lemma CompressedOfLarge(k: nat)
    ensures Compressed(k * Pow(10, 9)) == if k == 0 then 0 else 1 + 10 * (k - 1) + 9
    ensures Decompressed(if k == 0 then 0 else 1 + 10 * (k - 1) + 9) == k * Pow(10, 9)
  {
    DecompressCompressed(k * Pow(10, 9));
    if k > 0 {
      StripOf(k, 0, 9);
      hide *;
      CompressedByStrip(k * Pow(10, 9), k, 9);
    }
  }

  /** Every amount is of one of these two forms. */
  lemma DecimalForm(n: nat) returns (q: nat, d: nat, e: nat, k: nat)
    ensures n == k * Pow(10, 9) || (1 <= d <= 9 && e < 9 && n == (10 * q + d) * Pow(10, e))
  {
    hide Pow;
    q, d, e, k := 0, 0, 0, 0;
    if n > 0 {
      StripIs(n, 0);
      var (m, f) := Strip(n, 0);
      if f < 9 { q, d, e := m / 10, m % 10, f; } else { k := m; }
    }
  }

  const CENT: nat := 1000000
  const COIN: nat := 100000000

  /** Amounts and their compressed forms. */
  lemma AmountPairs()
    ensures Compressed(1) == 0x1 && Compressed(CENT) == 0x7 && Compressed(COIN) == 0x9
    ensures Compressed(50 * COIN) == 0x32 && Compressed(21000000 * COIN) == 0x1406f40
  {
    TensAre();
    CompressedIs(0, 1, 0);
    CompressedIs(0, 1, 6);
    CompressedIs(0, 1, 8);
    hide Pow, Compressed, Decompressed;
    CompressedOfLarge(5);
    CompressedOfLarge(2100000);
  }

  lemma TensAre()
    ensures Pow(10, 0) == 1 && Pow(10, 6) == CENT && Pow(10, 8) == COIN && Pow(10, 9) == 10 * COIN
  {
    assert Pow(10, 2) == 100 && Pow(10, 4) == 10000;
  }

  /** A compressed amount is never more than ten times the amount, so that up to a tenth of the range nothing wraps. */
  lemma CompressedBound(n: nat)
    ensures Compressed(n) <= 10 * n
  {
    if n > 0 {
      StripIs(n, 0);
      var (m, e) := Strip(n, 0);
      PowMonotone(10, 0, e);
      if e == 0 {
        assert m * Pow(10, 0) == m;
      } else {
        assert Pow(10, e) == 10 * Pow(10, e - 1);
        PowMonotone(10, 0, e - 1);
        MulMonotone(m, m, 10, Pow(10, e));
      }
    }
  }

  const U64: nat := 0x1_0000_0000_0000_0000

  /** A number of 64 bits as a signed one, which amounts are. */
  function Signed(n: nat): int
  {
    if n < U64 / 2 then n else n - U64
  }

  /** Reading an output never yields the amount of -1 that a null output has: it is odd and too large. */
  lemma NeverNull(x: nat)
    requires x < U64
    ensures Signed(Decompressed(x) % U64) != -1
  {
    if x > 0 {
      var y, e := (x - 1) / 10, (x - 1) % 10;
      if e == 0 {
        Zeroth(Mantissa(y, 0));
      } else {
        EvenPart(Mantissa(y, e), Pow(10, e - 1));
        assert Pow(10, e) == 10 * Pow(10, e - 1);
      }
    }
  }

  lemma EvenPart(m: nat, p: nat)
    ensures m * (10 * p) % U64 % 2 == 0
  {
    var v := m * (10 * p);
    assert v == 2 * (m * (5 * p));
    var q := v / U64;
    assert v == q * U64 + v % U64;
    assert v % U64 == 2 * (m * (5 * p) - q * (U64 / 2));
  }

  const U32: nat := 0x1_0000_0000
  const MAX_MONEY_OUT: nat := 100000000 * 100000000

  /** All arithmetic is modulo 2^64. */
  method CompressAmount(amount: nat) returns (r: nat)
    requires amount < U64
    ensures r == Compressed(amount) % U64
  {
    if amount == 0 {
      return 0;
    }
    var n, e := amount, 0;
    while n % 10 == 0 && e < 9
      invariant 0 < n < U64 && 0 <= e <= 9 && Strip(n, e) == Strip(amount, 0)
      decreases 9 - e
    {
      n := n / 10;
      e := e + 1;
    }
    if e < 9 {
      var d := n % 10;
      assert 1 <= d <= 9;
      n := n / 10;
      r := (1 + (n * 9 + d - 1) * 10 + e) % U64;
    } else {
      r := (1 + (n - 1) * 10 + 9) % U64;
    }
  }

  method DecompressAmount(compressed: nat) returns (n: nat)
    requires compressed < U64
    ensures n == Decompressed(compressed) % U64
  {
    hide Pow;
    if compressed == 0 {
      return 0;
    }
    var x := compressed - 1;
    var e := x % 10;
    x := x / 10;
    if e < 9 {
      var d := x % 9 + 1;
      x := x / 9;
      n := (x * 10 + d) % U64;
    } else {
      n := (x + 1) % U64;
    }
    ghost var m := Mantissa((compressed - 1) / 10, (compressed - 1) % 10);
    Zeroth(m);
    ghost var done := 0;
    while e > 0
      invariant 0 <= e && 0 <= done && done + e == (compressed - 1) % 10 && n == m * Pow(10, done) % U64
    {
      TenMore(m, done, n);
      n := n * 10 % U64;
      e := e - 1;
      done := done + 1;
    }
  }

  lemma Zeroth(m: nat)
    ensures m * Pow(10, 0) == m
  {
  }

  lemma TenMore(m: nat, k: nat, n: nat)
    requires n == m * Pow(10, k) % U64
    ensures n * 10 % U64 == m * Pow(10, k + 1) % U64
  {
    var v := m * Pow(10, k);
    assert m * Pow(10, k + 1) == v * 10 by { assert m * (10 * Pow(10, k)) == v * 10; }
    ModTimes(v, 10);
  }

  lemma ModTimes(v: nat, k: nat)
    ensures v % U64 * k % U64 == v * k % U64
  {
    var q, r := v / U64, v % U64;
    assert v == q * U64 + r;
    assert v * k == q * k * U64 + r * k;
    var a := r * k;
    assert a == a / U64 * U64 + a % U64;
    var b := q * k;
    assert v * k == (b + a / U64) * U64 + a % U64;
    DivModOf(b + a / U64, a % U64, U64);
  }

  // ----- scripts

  type Script = seq<Byte>

  const OP_DUP: Byte := 0x76
  const OP_EQUAL: Byte := 0x87
  const OP_EQUALVERIFY: Byte := 0x88
  const OP_HASH160: Byte := 0xa9
  const OP_CHECKSIG: Byte := 0xac

  const SPECIAL_SCRIPTS: nat := 6

  /** The library of elliptic curve operations: whether an uncompressed key is valid, and decompression. */
  datatype Curve = Curve(isFullyValid: seq<Byte> -> bool, decompress: seq<Byte> -> Option<seq<Byte>>)

  function Parity(key: seq<Byte>): Byte
    requires |key| == 65
  {
    key[64] % 2
  }

  /** The valid uncompressed keys are exactly what compressed keys decompress to, by first coordinate and parity. */
  ghost predicate IsCurve(c: Curve)
  {
    && (forall key: seq<Byte> :: |key| == 65 && key[0] == 4 && c.isFullyValid(key) ==>
          c.decompress([2 + Parity(key)] + key[1..33]) == Some(key))
    && (forall x: seq<Byte>, key :: |x| == 33 && 2 <= x[0] <= 3 && c.decompress(x) == Some(key) ==>
          |key| == 65 && key[0] == 4 && c.isFullyValid(key) && key[1..33] == x[1..] && Parity(key) == x[0] - 2)
  }

  function KeyIdScript(id: seq<Byte>): Script
  {
    [OP_DUP, OP_HASH160, 20] + id + [OP_EQUALVERIFY, OP_CHECKSIG]
  }

  function ScriptIdScript(id: seq<Byte>): Script
  {
    [OP_HASH160, 20] + id + [OP_EQUAL]
  }

  function KeyScript(key: seq<Byte>): Script
    requires |key| < 256
  {
    [|key|] + key + [OP_CHECKSIG]
  }

  /** The special form of a script, if it has one: a tag below 6 and 20 or 32 bytes. */
  function Special(s: Script, c: Curve): Option<seq<Byte>>
  {
    if |s| == 25 && s == KeyIdScript(s[3..23]) then Some([0] + s[3..23])
    else if |s| == 23 && s == ScriptIdScript(s[2..22]) then Some([1] + s[2..22])
    else if |s| == 35 && s == KeyScript(s[1..34]) && (s[1] == 2 || s[1] == 3) then Some(s[1..34])
    else if |s| == 67 && s == KeyScript(s[1..66]) && s[1] == 4 && c.isFullyValid(s[1..66]) then
      Some([4 + s[65] % 2] + s[2..34])
    else None
  }

  function SpecialSize(tag: nat): nat
  {
    if tag <= 1 then 20 else if tag <= 5 then 32 else 0
  }

  /** The script that a tag and its bytes stand for. */
  function Expanded(tag: nat, data: seq<Byte>, c: Curve): Option<Script>
  {
    if tag == 0 then Some(KeyIdScript(data))
    else if tag == 1 then Some(ScriptIdScript(data))
    else if tag <= 3 && |data| < 255 then Some(KeyScript([tag] + data))
    else if tag <= 5 then
      match c.decompress([tag - 2] + data)
      case None => None
      case Some(key) => if |key| < 256 then Some(KeyScript(key)) else None
    else None
  }

  ghost predicate IsForm(out: seq<Byte>)
  {
    out != [] && out[0] < 6 && |out| == 1 + SpecialSize(out[0])
  }

  lemma FormOfKeyId(s: Script, out: seq<Byte>, c: Curve)
    requires IsForm(out) && out[0] == 0
    ensures Special(s, c) == Some(out) <==> s == KeyIdScript(out[1..])
  {
    assert out == [0] + out[1..];
    if s == KeyIdScript(out[1..]) { assert s[3..23] == out[1..]; }
    if Special(s, c) == Some(out) { assert out[1..] == s[3..23]; }
  }

  lemma FormOfScriptId(s: Script, out: seq<Byte>, c: Curve)
    requires IsForm(out) && out[0] == 1
    ensures Special(s, c) == Some(out) <==> s == ScriptIdScript(out[1..])
  {
    assert out == [1] + out[1..];
    if s == ScriptIdScript(out[1..]) { assert s[2..22] == out[1..]; }
    if Special(s, c) == Some(out) { assert out[1..] == s[2..22]; }
  }

  lemma FormOfKey(s: Script, out: seq<Byte>, c: Curve)
    requires IsForm(out) && (out[0] == 2 || out[0] == 3)
    ensures Special(s, c) == Some(out) <==> s == KeyScript(out)
  {
    if s == KeyScript(out) { assert s[1..34] == out; }
  }

  lemma FullKeyCompresses(s: Script, out: seq<Byte>, c: Curve)
    requires IsForm(out) && out[0] >= 4 && IsCurve(c) && Expanded(out[0], out[1..], c) == Some(s)
    ensures Special(s, c) == Some(out)
  {
    var key := c.decompress([out[0] - 2] + out[1..]).value;
    assert ([out[0] - 2] + out[1..])[1..] == out[1..];
    assert s[1..66] == key;
    assert s[2..34] == key[1..33];
    assert out == [out[0]] + out[1..];
  }

  lemma FullKeyExpands(s: Script, out: seq<Byte>, c: Curve)
    requires IsForm(out) && out[0] >= 4 && IsCurve(c) && Special(s, c) == Some(out)
    ensures Expanded(out[0], out[1..], c) == Some(s)
  {
    var x, key := [out[0] - 2] + out[1..], s[1..66];
    assert key[1..33] == s[2..34];
    assert Parity(key) == s[65] % 2;
    assert out[1..] == key[1..33];
    assert x == [2 + Parity(key)] + key[1..33];
    assert c.decompress(x) == Some(key);
  }

  /** A script has a special form exactly when the form expands to it: the two directions are inverse. */
  lemma SpecialIsExact(s: Script, out: seq<Byte>, c: Curve)
    requires IsForm(out) && IsCurve(c)
    ensures Special(s, c) == Some(out) <==> Expanded(out[0], out[1..], c) == Some(s)
  {
    if out[0] == 0 { FormOfKeyId(s, out, c); }
    else if out[0] == 1 { FormOfScriptId(s, out, c); }
    else if out[0] <= 3 {
      FormOfKey(s, out, c);
      assert [out[0]] + out[1..] == out;
    } else {
      hide Special, Expanded;
      if Special(s, c) == Some(out) { FullKeyExpands(s, out, c); }
      if Expanded(out[0], out[1..], c) == Some(s) { FullKeyCompresses(s, out, c); }
    }
  }

  lemma SpecialHasForm(s: Script, c: Curve)
    ensures Special(s, c).Some? ==> IsForm(Special(s, c).value)
  {
  }

  /** The serialized script: its special form, or its length, moved out of the way of the tags, and its bytes. */
  function Encoding(s: Script, c: Curve): seq<Byte>
  {
    if Special(s, c).Some? then Special(s, c).value else Encoded(|s| + SPECIAL_SCRIPTS, true) + s
  }

  /** Reading changes nothing when the bytes of a special form are no valid key. */
  function Decoding(s: seq<Byte>, was: Script, c: Curve): Option<(Script, seq<Byte>)>
  {
    match ReadOn(0, s)
    case None => None
    case Some((size, t)) =>
      var n := size % U32;
      if n < SPECIAL_SCRIPTS then
        if |t| < SpecialSize(n) then None
        else
          match Expanded(n, t[..SpecialSize(n)], c)
          case None => Some((was, t[SpecialSize(n)..]))
          case Some(r) => Some((r, t[SpecialSize(n)..]))
      else if |t| < n - SPECIAL_SCRIPTS then None
      else Some((t[..n - SPECIAL_SCRIPTS], t[n - SPECIAL_SCRIPTS..]))
  }

  /** Reading a serialized script gives it back; a tag is never taken for a length nor a length for a tag. */
  lemma ScriptRoundTrip(s: Script, t: seq<Byte>, was: Script, c: Curve)
    requires IsCurve(c) && |s| + SPECIAL_SCRIPTS < U32
    ensures Decoding(Encoding(s, c) + t, was, c) == Some((s, t))
    ensures ReadOn(0, Encoding(s, c) + t).Some?
    ensures Special(s, c).Some? <==> ReadOn(0, Encoding(s, c) + t).value.0 < SPECIAL_SCRIPTS
  {
    hide *;
    if Special(s, c).Some? { SpecialRoundTrip(s, t, was, c); } else { PlainRoundTrip(s, t, was, c); }
  }

  lemma SpecialRoundTrip(s: Script, t: seq<Byte>, was: Script, c: Curve)
    requires IsCurve(c) && Special(s, c).Some?
    ensures Decoding(Encoding(s, c) + t, was, c) == Some((s, t))
    ensures ReadOn(0, Encoding(s, c) + t).Some? && ReadOn(0, Encoding(s, c) + t).value.0 < SPECIAL_SCRIPTS
  {
    hide Special, Expanded, IsCurve, IsForm, ReadOn;
    var out := Special(s, c).value;
    SpecialHasForm(s, c);
    SpecialIsExact(s, out, c);
    FormIs(out, t);
    var size := SpecialSize(out[0]);
    assert (out[1..] + t)[..size] == out[1..];
    assert (out[1..] + t)[size..] == t;
  }

  /** A form reads as its tag, a number that is its own encoding, and the rest. */
  lemma FormIs(out: seq<Byte>, t: seq<Byte>)
    requires IsForm(out)
    ensures out != [] && out[0] < 6 && |out| == 1 + SpecialSize(out[0])
    ensures ReadOn(0, out + t) == Some((out[0], out[1..] + t))
  {
    assert (out + t)[1..] == out[1..] + t;
  }

  lemma PlainRoundTrip(s: Script, t: seq<Byte>, was: Script, c: Curve)
    requires Special(s, c).None? && |s| + SPECIAL_SCRIPTS < U32
    ensures Decoding(Encoding(s, c) + t, was, c) == Some((s, t))
    ensures ReadOn(0, Encoding(s, c) + t).Some? && ReadOn(0, Encoding(s, c) + t).value.0 >= SPECIAL_SCRIPTS
  {
    hide Special, Decoding, ReadOn, Encoded;
    RawIsRead(s, t, was, c);
  }

  /** The bytes of any script, after its length moved out of the way of the tags, are read as the script. */
  lemma RawIsRead(s: Script, t: seq<Byte>, was: Script, c: Curve)
    requires |s| + SPECIAL_SCRIPTS < U32
    ensures var raw := Encoded(|s| + SPECIAL_SCRIPTS, true) + s + t;
      ReadOn(0, raw) == Some((|s| + SPECIAL_SCRIPTS, s + t)) && Decoding(raw, was, c) == Some((s, t))
  {
    hide *;
    ReadWritten(|s| + SPECIAL_SCRIPTS, s + t);
    Reassociated(Encoded(|s| + SPECIAL_SCRIPTS, true), s, t);
    BytesAreTaken(Encoded(|s| + SPECIAL_SCRIPTS, true) + s + t, s, t, was, c);
  }

  lemma Reassociated(a: seq<Byte>, b: seq<Byte>, c: seq<Byte>)
    ensures a + b + c == a + (b + c) && (b + c)[..|b|] == b && (b + c)[|b|..] == c
  {
  }

  lemma BytesAreTaken(raw: seq<Byte>, s: Script, t: seq<Byte>, was: Script, c: Curve)
    requires |s| + SPECIAL_SCRIPTS < U32 && ReadOn(0, raw) == Some((|s| + SPECIAL_SCRIPTS, s + t))
    ensures Decoding(raw, was, c) == Some((s, t))
  {
    hide Expanded, ReadOn;
    Reassociated([], s, t);
  }

  /** Reading takes a script's bytes as they are, or expands a special form, and no bits of the length are lost. */
  predicate IsPlainlyRead(s: seq<Byte>, was: Script, c: Curve)
    requires Decoding(s, was, c).Some?
  {
    var (size, t) := ReadOn(0, s).value;
    && size < U32
    && if size < SPECIAL_SCRIPTS then Expanded(size, t[..SpecialSize(size)], c).Some?
       else Special(Decoding(s, was, c).value.0, c).None?
  }

  lemma FormWasRead(s: seq<Byte>, size: nat, u: seq<Byte>, script: Script, c: Curve)
    requires IsCurve(c) && size < SPECIAL_SCRIPTS && s == Encoded(size, true) + u
    requires |u| >= SpecialSize(size) && Expanded(size, u[..SpecialSize(size)], c) == Some(script)
    ensures Special(script, c).Some? && s == Encoding(script, c) + u[SpecialSize(size)..]
  {
    hide Special, Expanded, IsCurve;
    var n := SpecialSize(size);
    var out := [size] + u[..n];
    assert out[1..] == u[..n];
    SpecialIsExact(script, out, c);
    assert Encoded(size, true) == [size];
    assert s == out + u[n..];
  }

  lemma FormIsRead(script: Script, t: seq<Byte>, s: seq<Byte>, was: Script, c: Curve)
    requires IsCurve(c) && Special(script, c).Some? && s == Encoding(script, c) + t && Decoding(s, was, c).Some?
    ensures IsPlainlyRead(s, was, c)
  {
    hide Special, Expanded, IsCurve, ReadOn;
    var out := Special(script, c).value;
    SpecialHasForm(script, c);
    SpecialIsExact(script, out, c);
    FormIs(out, t);
    assert (out[1..] + t)[..SpecialSize(out[0])] == out[1..];
  }

  lemma PlainIsRead(script: Script, t: seq<Byte>, s: seq<Byte>, was: Script, c: Curve)
    requires Special(script, c).None? && s == Encoding(script, c) + t && Decoding(s, was, c) == Some((script, t))
    ensures IsPlainlyRead(s, was, c)
  {
    hide Special, Expanded, ReadOn, Encoded;
    ReadWritten(|script| + SPECIAL_SCRIPTS, script + t);
    assert s == Encoded(|script| + SPECIAL_SCRIPTS, true) + (script + t);
  }

  /** Exactly when what was read is what would be written: otherwise a script with a special form was stored without
      it, a special form was no valid key, or the length does not fit. */
  lemma ScriptReadIsExact(s: seq<Byte>, was: Script, c: Curve)
    requires IsCurve(c) && Decoding(s, was, c).Some?
    ensures var (script, t) := Decoding(s, was, c).value;
      s == Encoding(script, c) + t <==> IsPlainlyRead(s, was, c)
  {
    hide Special, Expanded, IsCurve, ReadOn, Encoded;
    var (script, t) := Decoding(s, was, c).value;
    var (size, u) := ReadOn(0, s).value;
    ReadIsExact(s, size, u);
    if IsPlainlyRead(s, was, c) {
      if size < SPECIAL_SCRIPTS { FormWasRead(s, size, u, script, c); }
      else { assert u == script + t; assert s == Encoded(size, true) + script + t; }
    }
    if s == Encoding(script, c) + t {
      if Special(script, c).Some? { FormIsRead(script, t, s, was, c); }
      else { PlainIsRead(script, t, s, was, c); }
    }
  }

  /** A script with a special form is read from its plain bytes too, but would not be written so. */
  lemma RawFormIsRead(s: Script, t: seq<Byte>, was: Script, c: Curve)
    requires Special(s, c).Some?
    ensures var raw := Encoded(|s| + SPECIAL_SCRIPTS, true) + s + t;
      Decoding(raw, was, c) == Some((s, t)) && !IsPlainlyRead(raw, was, c)
  {
    SpecialIsShort(s, c);
    hide Special, Expanded, ReadOn, Encoded, Decoding;
    RawIsRead(s, t, was, c);
  }

  lemma SpecialIsShort(s: Script, c: Curve)
    requires Special(s, c).Some?
    ensures |s| <= 67
  {
  }

  /** The forms of scripts, byte by byte: to a key hash, to a script hash, to a compressed key, to an uncompressed one. */
  lemma FormsOfScripts(id: seq<Byte>, x: seq<Byte>, y: seq<Byte>, sign: Byte, c: Curve)
    requires |id| == 20 && |x| == |y| == 32 && 2 <= sign <= 3
    ensures Encoding([0x76, 0xa9, 20] + id + [0x88, 0xac], c) == [0] + id
    ensures Encoding([0xa9, 20] + id + [0x87], c) == [1] + id
    ensures Encoding([33, sign] + x + [0xac], c) == [sign] + x
    ensures c.isFullyValid([4] + x + y) ==> Encoding([65, 4] + x + y + [0xac], c) == [4 + y[31] % 2] + x
  {
    var a, b := [0x76, 0xa9, 20] + id + [0x88, 0xac], [0xa9, 20] + id + [0x87];
    assert a[3..23] == id && b[2..22] == id;
    var k := [33, sign] + x + [0xac];
    assert k[1..34] == [sign] + x;
    var l := [65, 4] + x + y + [0xac];
    assert l[1..66] == [4] + x + y && l[2..34] == x && l[65] == y[31];
  }

  /** Every other script is written as it is, after its length plus six. */
  lemma OthersArePlain(s: Script, c: Curve)
    requires forall id: seq<Byte> :: |id| == 20 ==>
      s != [0x76, 0xa9, 20] + id + [0x88, 0xac] && s != [0xa9, 20] + id + [0x87]
    requires forall key: seq<Byte> :: |key| == 33 && 2 <= key[0] <= 3 ==> s != [33] + key + [0xac]
    requires forall key: seq<Byte> :: |key| == 65 && key[0] == 4 && c.isFullyValid(key) ==> s != [65] + key + [0xac]
    ensures Encoding(s, c) == Encoded(|s| + 6, true) + s
  {
    hide *;
    NoHashForm(s);
    NoKeyForm(s, c);
    NoSpecialForm(s, c);
  }

  lemma NoHashForm(s: Script)
    requires forall id: seq<Byte> :: |id| == 20 ==>
      s != [0x76, 0xa9, 20] + id + [0x88, 0xac] && s != [0xa9, 20] + id + [0x87]
    ensures |s| == 25 ==> s != KeyIdScript(s[3..23])
    ensures |s| == 23 ==> s != ScriptIdScript(s[2..22])
  {
    if |s| == 25 { assert |s[3..23]| == 20; }
    if |s| == 23 { assert |s[2..22]| == 20; }
  }

  lemma NoKeyForm(s: Script, c: Curve)
    requires forall key: seq<Byte> :: |key| == 33 && 2 <= key[0] <= 3 ==> s != [33] + key + [0xac]
    requires forall key: seq<Byte> :: |key| == 65 && key[0] == 4 && c.isFullyValid(key) ==> s != [65] + key + [0xac]
    ensures |s| == 35 && 2 <= s[1] <= 3 ==> s != KeyScript(s[1..34])
    ensures |s| == 67 && s[1] == 4 && c.isFullyValid(s[1..66]) ==> s != KeyScript(s[1..66])
  {
    if |s| == 35 { assert |s[1..34]| == 33 && s[1..34][0] == s[1]; }
    if |s| == 67 { assert |s[1..66]| == 65 && s[1..66][0] == s[1]; }
  }

  lemma NoSpecialForm(s: Script, c: Curve)
    requires |s| == 25 ==> s != KeyIdScript(s[3..23])
    requires |s| == 23 ==> s != ScriptIdScript(s[2..22])
    requires |s| == 35 && 2 <= s[1] <= 3 ==> s != KeyScript(s[1..34])
    requires |s| == 67 && s[1] == 4 && c.isFullyValid(s[1..66]) ==> s != KeyScript(s[1..66])
    ensures Encoding(s, c) == Encoded(|s| + 6, true) + s
  {
    hide KeyIdScript, ScriptIdScript, KeyScript, Encoded;
  }

  // ----- the code

  predicate IsToKeyID(s: Script)
  {
    |s| == 25 && s[0] == OP_DUP && s[1] == OP_HASH160 && s[2] == 20 && s[23] == OP_EQUALVERIFY && s[24] == OP_CHECKSIG
  }

  predicate IsToScriptID(s: Script)
  {
    |s| == 23 && s[0] == OP_HASH160 && s[1] == 20 && s[22] == OP_EQUAL
  }

  /** The public key of a pay-to-pubkey script, if it can be compressed. */
  function ToPubKey(s: Script, c: Curve): Option<seq<Byte>>
  {
    if |s| == 35 && s[0] == 33 && s[34] == OP_CHECKSIG && (s[1] == 2 || s[1] == 3) then Some(s[1..34])
    else if |s| == 67 && s[0] == 65 && s[66] == OP_CHECKSIG && s[1] == 4 && c.isFullyValid(s[1..66]) then Some(s[1..66])
    else None
  }

  method Compress(s: Script, c: Curve) returns (out: Option<seq<Byte>>)
    ensures out == Special(s, c)
  {
    Shapes(s);
    if IsToKeyID(s) {
      return Some([0] + s[3..23]);
    }
    if IsToScriptID(s) {
      return Some([1] + s[2..22]);
    }
    var pubkey := ToPubKey(s, c);
    if pubkey.Some? {
      var key := pubkey.value;
      if key[0] == 2 || key[0] == 3 {
        return Some([key[0]] + key[1..33]);
      } else if key[0] == 4 {
        return Some([4 + key[64] % 2] + key[1..33]);
      }
    }
    out := None;
  }

  lemma Shapes(s: Script)
    ensures IsToKeyID(s) <==> |s| == 25 && s == KeyIdScript(s[3..23])
    ensures IsToScriptID(s) <==> |s| == 23 && s == ScriptIdScript(s[2..22])
    ensures |s| == 35 ==> (s[0] == 33 && s[34] == OP_CHECKSIG <==> s == KeyScript(s[1..34])) && [s[1]] + s[1..34][1..33] == s[1..34]
    ensures |s| == 67 ==> (s[0] == 65 && s[66] == OP_CHECKSIG <==> s == KeyScript(s[1..66])) && s[1..66][1..33] == s[2..34]
  {
  }

  method Serialize(s: Script, c: Curve) returns (bytes: seq<Byte>)
    requires |s| + SPECIAL_SCRIPTS < U32
    ensures bytes == Encoding(s, c)
  {
    hide Special, Encoded;
    var compr := Compress(s, c);
    if compr.Some? {
      return compr.value;
    }
    TwoTo32();
    var size := WriteVarInt(|s| + SPECIAL_SCRIPTS, 32);
    bytes := size + s;
  }

  lemma TwoTo32()
    ensures Pow(2, 32) == U32
  {
    PowPow(2, 8, 4);
    assert Pow(2, 8) == 256 && Pow(256, 4) == U32;
  }

  method Unserialize(s: seq<Byte>, was: Script, c: Curve) returns (r: Option<(Script, seq<Byte>)>)
    ensures r == Decoding(s, was, c)
  {
    var size := ReadVarInt(s);
    if size.None? {
      return None;
    }
    var nSize, rest := size.value.0 % U32, size.value.1;
    if nSize < SPECIAL_SCRIPTS {
      if |rest| < SpecialSize(nSize) {
        return None;
      }
      var script := Expanded(nSize, rest[..SpecialSize(nSize)], c);
      return Some((if script.Some? then script.value else was, rest[SpecialSize(nSize)..]));
    }
    nSize := nSize - SPECIAL_SCRIPTS;
    if |rest| < nSize {
      return None;
    }
    r := Some((rest[..nSize], rest[nSize..]));
  }

  // ----- outputs

  /** A serialized output: its compressed amount and its script. */
  method SerializeOutput(value: nat, script: Script, c: Curve) returns (bytes: seq<Byte>)
    requires value < U64 && |script| + SPECIAL_SCRIPTS < U32
    ensures bytes == OutputBytes(value, script, c)
  {
    hide Encoded, Compressed, Encoding;
    var nVal := CompressAmount(value);
    TwoTo64();
    var amount := WriteVarInt(nVal, 64);
    var rest := Serialize(script, c);
    bytes := amount + rest;
  }

  lemma TwoTo64()
    ensures Pow(2, 64) == U64
  {
    TwoTo32();
    PowPow(2, 32, 2);
    assert Pow(U32, 2) == U32 * (U32 * 1);
  }

  function OutputBytes(value: nat, script: Script, c: Curve): seq<Byte>
  {
    Encoded(Compressed(value) % U64, true) + Encoding(script, c)
  }

  method UnserializeOutput(s: seq<Byte>, was: Script, c: Curve) returns (r: Option<(nat, Script, seq<Byte>)>)
    ensures r == OutputOf(s, was, c)
  {
    hide Decompressed, Decoding;
    var nVal := ReadVarInt(s);
    if nVal.None? {
      return None;
    }
    var value := DecompressAmount(nVal.value.0 % U64);
    var script := Unserialize(nVal.value.1, was, c);
    r := if script.None? then None else Some((value, script.value.0, script.value.1));
  }

  function OutputOf(s: seq<Byte>, was: Script, c: Curve): Option<(nat, Script, seq<Byte>)>
  {
    match ReadOn(0, s)
    case None => None
    case Some((x, t)) =>
      match Decoding(t, was, c)
      case None => None
      case Some((script, rest)) => Some((Decompressed(x % U64) % U64, script, rest))
  }

  /** Every output worth up to all the money there may be is read back as it was written, whatever follows it. */
  lemma OutputRoundTrip(value: nat, script: Script, t: seq<Byte>, was: Script, c: Curve)
    requires IsCurve(c) && value <= MAX_MONEY_OUT && |script| + SPECIAL_SCRIPTS < U32
    ensures OutputOf(OutputBytes(value, script, c) + t, was, c) == Some((value, script, t))
  {
    hide Encoded, Compressed, Decompressed, Encoding, Decoding, IsCurve;
    CompressedBound(value);
    DecompressCompressed(value);
    ReadWritten(Compressed(value), Encoding(script, c) + t);
    assert OutputBytes(value, script, c) + t == Encoded(Compressed(value), true) + (Encoding(script, c) + t);
    ScriptRoundTrip(script, t, was, c);
  }
}
