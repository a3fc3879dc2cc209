/**
 * Variable-length integers: base 128, most significant digit first, the high bit set in all bytes but the last, and
 * one subtracted from all digits but the last, so that every number has exactly one encoding.
 */
module VarInt {
  import opened Radix
  import opened Wrappers

  /** The encoding of `n`, as the whole number or as the part before further digits. */
  function Encoded(n: nat, isLast: bool): (s: seq<Byte>)
    ensures s != []
  {
    (if n <= 127 then [] else Encoded(n / 128 - 1, false)) + [n % 128 + (if isLast then 0 else 128)]
  }

  /** Reads on when the digits read so far make `n`; there is no result if the bytes end before the number does. */
  function ReadOn(n: nat, s: seq<Byte>): Option<(nat, seq<Byte>)>
    decreases |s|
  {
    if s == [] then None
    else
      var v := n * 128 + s[0] % 128;
      if s[0] >= 128 then ReadOn(v + 1, s[1..]) else Some((v, s[1..]))
  }

  /** The last byte of an encoding, and what is before it. */
  lemma EncodedIs(n: nat, isLast: bool)
    ensures n % 128 < 128 && n / 128 * 128 + n % 128 == n && (n % 128 + 128) % 128 == n % 128
    ensures Encoded(n, isLast) == (if n <= 127 then [] else Encoded(n / 128 - 1, false)) + [n % 128 + (if isLast then 0 else 128)]
  {
  }

  lemma ReadByte(n: nat, b: Byte, t: seq<Byte>)
    ensures ReadOn(n, [b] + t) == if b >= 128 then ReadOn(n * 128 + b % 128 + 1, t) else Some((n * 128 + b % 128, t))
  {
    assert ([b] + t)[1..] == t;
  }

  lemma {:induction false} ReadPart(n: nat, t: seq<Byte>)
    ensures ReadOn(0, Encoded(n, false) + t) == ReadOn(n + 1, t)
  {
    hide Encoded, ReadOn;
    EncodedIs(n, false);
    var b := n % 128 + 128;
    if n <= 127 {
      assert Encoded(n, false) == [b];
      ReadByte(0, b, t);
    } else {
      ReadPart(n / 128 - 1, [b] + t);
      assert Encoded(n, false) + t == Encoded(n / 128 - 1, false) + ([b] + t);
      ReadByte(n / 128, b, t);
    }
  }

  /** Reading what was written gives the number, and what follows it. */
  lemma ReadWritten(n: nat, t: seq<Byte>)
    ensures ReadOn(0, Encoded(n, true) + t) == Some((n, t))
  {
    hide Encoded, ReadOn;
    EncodedIs(n, true);
    var b := n % 128;
    if n <= 127 {
      assert Encoded(n, true) == [b];
      ReadByte(0, b, t);
    } else {
      ReadPart(n / 128 - 1, [b] + t);
      assert Encoded(n, true) + t == Encoded(n / 128 - 1, false) + ([b] + t);
      ReadByte(n / 128, b, t);
    }
  }

  /** The bytes read so far when they make `n`. */
  function ReadSoFar(n: nat): seq<Byte>
  {
    if n == 0 then [] else Encoded(n - 1, false)
  }

  lemma {:induction false} WrittenOn(n: nat, s: seq<Byte>)
    requires ReadOn(n, s).Some?
    ensures ReadSoFar(n) + s == Encoded(ReadOn(n, s).value.0, true) + ReadOn(n, s).value.1
    decreases |s|
  {
    hide Encoded;
    var b, t := s[0], s[1..];
    assert s == [b] + t;
    ReadByte(n, b, t);
    hide ReadOn;
    var v := n * 128 + b % 128;
    DivModOf(n, b % 128, 128);
    EncodedIs(v, b < 128);
    assert Encoded(v, b < 128) == ReadSoFar(n) + [b];
    assert ReadSoFar(n) + s == Encoded(v, b < 128) + t;
    if b >= 128 { WrittenOn(v + 1, t); }
  }

  /** Whatever can be read is the encoding of what is read: no two byte strings encode the same number. */
  lemma ReadIsExact(s: seq<Byte>, n: nat, t: seq<Byte>)
    ensures ReadOn(0, s) == Some((n, t)) <==> s == Encoded(n, true) + t
  {
    if ReadOn(0, s) == Some((n, t)) {
      WrittenOn(0, s);
      assert [] + s == s;
    }
    if s == Encoded(n, true) + t { ReadWritten(n, t); }
  }

  /** Every byte string with a byte below 128 starts with an encoded number: none is redundant. */
  lemma {:induction false} ReadSucceeds(n: nat, s: seq<Byte>)
    ensures ReadOn(n, s).Some? <==> exists i :: 0 <= i < |s| && s[i] < 128
    decreases |s|
  {
    if s != [] && s[0] >= 128 {
      ReadSucceeds(n * 128 + s[0] % 128 + 1, s[1..]);
      if i :| 0 <= i < |s[1..]| && s[1..][i] < 128 { assert s[i + 1] < 128; }
      if i :| 0 <= i < |s| && s[i] < 128 { assert s[1..][i - 1] < 128; }
    }
  }

  /** All bytes but the last have their high bit set. */
  ghost predicate IsEncoding(a: seq<Byte>)
  {
    a != [] && a[|a| - 1] < 128 && forall i :: 0 <= i < |a| - 1 ==> a[i] >= 128
  }

  /** What the bytes of an encoding stand for: powers of 128 times the low seven bits, plus one for all but the last. */
  function Sum(a: seq<Byte>): nat
  {
    if a == [] then 0
    else if |a| == 1 then a[0] % 128
    else (a[0] % 128 + 1) * Pow(128, |a| - 1) + Sum(a[1..])
  }

  lemma {:induction false} SumIsRead(n: nat, a: seq<Byte>)
    requires IsEncoding(a)
    ensures ReadOn(n, a) == Some((n * Pow(128, |a|) + Sum(a), []))
    decreases |a|
  {
    if |a| > 1 {
      SumIsRead(n * 128 + a[0] % 128 + 1, a[1..]);
      ShiftOn(n, a[0] % 128 + 1, Pow(128, |a| - 1));
    } else {
      assert Pow(128, 1) == 128;
    }
  }

  lemma ShiftOn(n: nat, d: nat, p: nat)
    ensures (n * 128 + d) * p == n * (128 * p) + d * p
  {
  }

  /** The bytes of a number are exactly those that stand for it. */
  lemma EncodedIsSum(n: nat, a: seq<Byte>)
    ensures IsEncoding(a) && Sum(a) == n <==> a == Encoded(n, true)
  {
    hide Pow;
    if IsEncoding(a) {
      SumIsRead(0, a);
      ReadIsExact(a, Sum(a), []);
      assert Encoded(Sum(a), true) + [] == Encoded(Sum(a), true);
    }
    if a == Encoded(n, true) {
      HighBits(n, true);
      SumIsRead(0, a);
      ReadWritten(n, []);
      assert a + [] == a;
    }
  }

  lemma {:induction false} HighBits(n: nat, isLast: bool)
    ensures var a := Encoded(n, isLast);
      (a[|a| - 1] < 128 <==> isLast) && forall i :: 0 <= i < |a| - 1 ==> a[i] >= 128
  {
    if n > 127 { HighBits(n / 128 - 1, false); }
  }

  lemma {:induction false} LengthBound(n: nat, isLast: bool, k: nat)
    requires n < Pow(128, k) && k > 0
    ensures |Encoded(n, isLast)| <= k
  {
    if n > 127 {
      assert Pow(128, 1) == 128;
      assert n / 128 < Pow(128, k - 1);
      LengthBound(n / 128 - 1, false, k - 1);
    }
  }

  /** The number of 7-bit digits that hold `width` bits: the size of the writer's buffer. */
  function BufferSize(width: nat): nat
  {
    (width + 6) / 7
  }

  /** The buffer has room for every number of its width. */
  lemma BufferSuffices(n: nat, width: nat)
    requires n < Pow(2, width) && width > 0
    ensures |Encoded(n, true)| <= BufferSize(width)
  {
    hide Encoded;
    PowMonotone(2, width, 7 * BufferSize(width));
    PowPow(2, 7, BufferSize(width));
    assert Pow(2, 7) == 128;
    LengthBound(n, true, BufferSize(width));
  }

  /** Writes a number of `width` bits: its digits go into a buffer from the last on, and out in reverse order. */
  method WriteVarInt(number: nat, width: nat) returns (s: seq<Byte>)
    requires number < Pow(2, width) && width > 0
    ensures s == Encoded(number, true)
  {
    hide Pow, Encoded, Reverse;
    BufferSuffices(number, width);
    ReverseNothing();
    var tmp := new Byte[BufferSize(width)](_ => 0);
    var n, len := number, 0;
    assert tmp[..0] == [];
    while n > 127
      invariant 0 <= n && 0 <= len && len + |Encoded(n, len == 0)| <= tmp.Length
      invariant Encoded(number, true) == Encoded(n, len == 0) + Reverse(tmp[..len])
      decreases n
    {
      EncodedIs(n, len == 0);
      tmp[len] := n % 128 + (if len != 0 then 128 else 0);
      ReverseGrows(tmp[..len], tmp[len]);
      assert tmp[..len + 1] == tmp[..len] + [tmp[len]];
      n := n / 128 - 1;
      len := len + 1;
    }
    EncodedIs(n, len == 0);
    tmp[len] := n % 128 + (if len != 0 then 128 else 0);
    ReverseGrows(tmp[..len], tmp[len]);
    assert tmp[..len + 1] == tmp[..len] + [tmp[len]];
    assert Encoded(number, true) == Reverse(tmp[..len + 1]);
    s := [tmp[len]];
    ReverseEnd(tmp[..len + 1], len);
    while len > 0
      invariant 0 <= len < tmp.Length
      invariant Encoded(number, true) == s + Reverse(tmp[..len])
    {
      len := len - 1;
      ReverseEnd(tmp[..len + 1], len);
      assert tmp[..len + 1][..len] == tmp[..len];
      s := s + [tmp[len]];
    }
  }

  function Reverse(s: seq<Byte>): seq<Byte>
  {
    seq(|s|, i requires 0 <= i < |s| => s[|s| - 1 - i])
  }

  lemma ReverseNothing()
    ensures Reverse([]) == []
  {
  }

  lemma ReverseGrows(s: seq<Byte>, b: Byte)
    ensures Reverse(s + [b]) == [b] + Reverse(s)
  {
  }

  lemma ReverseEnd(s: seq<Byte>, n: nat)
    requires |s| == n + 1
    ensures Reverse(s) == [s[n]] + Reverse(s[..n])
  {
  }

  method ReadVarInt(s: seq<Byte>) returns (r: Option<(nat, seq<Byte>)>)
    ensures r == ReadOn(0, s)
  {
    var n: nat := 0;
    var rest := s;
    while rest != []
      invariant ReadOn(0, s) == ReadOn(n, rest)
      decreases |rest|
    {
      var chData := rest[0];
      rest := rest[1..];
      n := n * 128 + chData % 128;
      if chData >= 128 {
        n := n + 1;
      } else {
        return Some((n, rest));
      }
    }
    r := None;
  }
}
