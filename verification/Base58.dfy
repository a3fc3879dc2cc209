/**
 * Base58 text encoding of byte strings: in-place base conversion in two buffers of precomputed size.
 * Everything but the last section is stated for an arbitrary alphabet of 58 symbols.
 */
module Base58 {
  import opened Radix
  import opened Wrappers

  /** The characters that C's `isspace` accepts. */
  predicate IsSpace(c: char)
  {
    c == ' ' || '\t' <= c <= '\r'
  }

  /** Fifty-eight different symbols, none of them white space. */
  ghost predicate IsAlphabet(alphabet: string)
  {
    && |alphabet| == 58
    && (forall i :: 0 <= i < 58 ==> IndexOf(alphabet, alphabet[i]) == i)
    && (forall c :: c in alphabet ==> !IsSpace(c))
  }

  predicate IsOver(s: string, alphabet: string)
  {
    forall i :: 0 <= i < |s| ==> s[i] in alphabet
  }

  /** Position of the first occurrence of `c`, as `strchr` finds it; |s| if there is none. */
  function IndexOf(s: string, c: char): (i: nat)
    ensures i <= |s|
    ensures i < |s| ==> s[i] == c
    ensures i == |s| <==> c !in s
  {
    if s == [] || s[0] == c then 0 else 1 + IndexOf(s[1..], c)
  }

  function Symbols(digits: seq<nat>, alphabet: string): (s: string)
    requires IsDigits(digits, |alphabet|)
  {
    seq(|digits|, i requires 0 <= i < |digits| => alphabet[digits[i]])
  }

  function Indices(s: string, alphabet: string): seq<nat>
  {
    seq(|s|, i requires 0 <= i < |s| => IndexOf(alphabet, s[i]))
  }

  function Zeroes(n: nat): seq<Byte>
  {
    seq(n, _ => 0)
  }

  function Copies(c: char, n: nat): string
  {
    seq(n, _ => c)
  }

  // ----- what the encoder and the decoder compute

  /** One zero symbol for each leading zero byte, then the rest as a number written in base 58. */
  function Encoding(bytes: seq<Byte>, alphabet: string): string
    requires IsAlphabet(alphabet)
  {
    var zeroes := Leading(bytes, 0);
    DigitsAreDigits(Value(bytes[zeroes..], 256), 58);
    Copies(alphabet[0], zeroes) + Symbols(Digits(Value(bytes[zeroes..], 256), 58), alphabet)
  }

  /** The bytes a string of symbols stands for: the reading that `Encoding` has to invert. */
  function Reading(s: string, alphabet: string): seq<Byte>
    requires IsAlphabet(alphabet)
  {
    var zeroes := Leading(s, alphabet[0]);
    DigitsAreDigits(Value(Indices(s[zeroes..], alphabet), 58), 256);
    Zeroes(zeroes) + Digits(Value(Indices(s[zeroes..], alphabet), 58), 256)
  }

  function LeadingSpaces(s: string): (n: nat)
    ensures n <= |s| && forall i :: 0 <= i < n ==> IsSpace(s[i])
    ensures n < |s| ==> !IsSpace(s[n])
  {
    if s == "" || !IsSpace(s[0]) then 0 else 1 + LeadingSpaces(s[1..])
  }

  function WordLength(s: string): (n: nat)
    ensures n <= |s| && forall i :: 0 <= i < n ==> !IsSpace(s[i])
    ensures n < |s| ==> IsSpace(s[n])
  {
    if s == "" || IsSpace(s[0]) then 0 else 1 + WordLength(s[1..])
  }

  /** What the decoder makes of a C string: one word of symbols, with white space around it. */
  function Decoding(s: string, alphabet: string): Option<seq<Byte>>
    requires IsAlphabet(alphabet)
  {
    WordDecoding(s[LeadingSpaces(s)..], alphabet)
  }

  function WordDecoding(t: string, alphabet: string): Option<seq<Byte>>
    requires IsAlphabet(alphabet)
  {
    var n := WordLength(t);
    if IsOver(t[..n], alphabet) && n + LeadingSpaces(t[n..]) == |t| then Some(Reading(t[..n], alphabet)) else None
  }

  function TrimRight(s: string): string
  {
    if s == "" || !IsSpace(s[|s| - 1]) then s else TrimRight(s[..|s| - 1])
  }

  /** The string without the white space at its two ends. */
  function Trimmed(s: string): string
  {
    TrimRight(s[LeadingSpaces(s)..])
  }

  // ----- the two directions are inverse

  lemma SymbolsAndIndices(digits: seq<nat>, alphabet: string)
    requires IsAlphabet(alphabet) && IsDigits(digits, 58)
    ensures IsOver(Symbols(digits, alphabet), alphabet)
    ensures Indices(Symbols(digits, alphabet), alphabet) == digits
  {
  }

  lemma IndicesAndSymbols(s: string, alphabet: string)
    requires IsAlphabet(alphabet) && IsOver(s, alphabet)
    ensures IsDigits(Indices(s, alphabet), 58) && Symbols(Indices(s, alphabet), alphabet) == s
  {
  }

  /** Reading back the encoding of any byte string gives that byte string. */
  lemma ReadingOfEncoding(bytes: seq<Byte>, alphabet: string)
    requires IsAlphabet(alphabet)
    ensures IsOver(Encoding(bytes, alphabet), alphabet)
    ensures Reading(Encoding(bytes, alphabet), alphabet) == bytes
  {
    hide Digits, Value, Pow;
    var zeroes := Leading(bytes, 0);
    var rest := bytes[zeroes..];
    var digits := Digits(Value(rest, 256), 58);
    DigitsAreDigits(Value(rest, 256), 58);
    SymbolsAndIndices(digits, alphabet);
    var s := Encoding(bytes, alphabet);
    assert s[zeroes..] == Symbols(digits, alphabet);
    LeadingIs(s, alphabet[0], zeroes);
    ValueOfDigits(Value(rest, 256), 58);
    DigitsOfValue(rest, 256);
    assert bytes == Zeroes(zeroes) + rest;
  }

  /** Encoding what any string of symbols stands for gives that string. */
  lemma EncodingOfReading(s: string, alphabet: string)
    requires IsAlphabet(alphabet) && IsOver(s, alphabet)
    ensures Encoding(Reading(s, alphabet), alphabet) == s
  {
    hide Digits, Value, Pow;
    var zeroes := Leading(s, alphabet[0]);
    var rest := s[zeroes..];
    var digits := Indices(rest, alphabet);
    IndicesAndSymbols(rest, alphabet);
    var bytes := Digits(Value(digits, 58), 256);
    DigitsAreDigits(Value(digits, 58), 256);
    assert Reading(s, alphabet)[zeroes..] == bytes;
    LeadingIs(Reading(s, alphabet), 0, zeroes);
    ValueOfDigits(Value(digits, 58), 256);
    assert rest != [] ==> alphabet[digits[0]] == rest[0];
    DigitsOfValue(digits, 58);
    assert s == Copies(alphabet[0], zeroes) + rest;
  }

  // ----- white space

  lemma {:induction false} SpacesAre(s: string, n: nat)
    requires n <= |s| && (forall i :: 0 <= i < n ==> IsSpace(s[i])) && (n < |s| ==> !IsSpace(s[n]))
    ensures LeadingSpaces(s) == n
  {
    if n > 0 { SpacesAre(s[1..], n - 1); }
  }

  lemma {:induction false} WordLengthIs(s: string, n: nat)
    requires n <= |s| && (forall i :: 0 <= i < n ==> !IsSpace(s[i])) && (n < |s| ==> IsSpace(s[n]))
    ensures WordLength(s) == n
  {
    if n > 0 { WordLengthIs(s[1..], n - 1); }
  }

  lemma {:induction false} TrimRightSplits(s: string)
    ensures TrimRight(s) <= s && forall i :: |TrimRight(s)| <= i < |s| ==> IsSpace(s[i])
  {
    if s != "" && IsSpace(s[|s| - 1]) { TrimRightSplits(s[..|s| - 1]); }
  }

  lemma {:induction false} TrimRightIs(s: string, n: nat)
    requires n <= |s| && forall i :: n <= i < |s| ==> IsSpace(s[i])
    requires n > 0 ==> !IsSpace(s[n - 1])
    ensures TrimRight(s) == s[..n]
  {
    if n < |s| {
      TrimRightIs(s[..|s| - 1], n);
      assert s[..|s| - 1][..n] == s[..n];
    } else {
      assert s[..n] == s;
    }
  }

  lemma EncodingHasNoSpace(bytes: seq<Byte>, alphabet: string)
    requires IsAlphabet(alphabet)
    ensures forall i :: 0 <= i < |Encoding(bytes, alphabet)| ==> !IsSpace(Encoding(bytes, alphabet)[i])
  {
    ReadingOfEncoding(bytes, alphabet);
  }

  /** The decoder accepts exactly the encodings, up to white space around them. */
  lemma DecodingExact(s: string, bytes: seq<Byte>, alphabet: string)
    requires IsAlphabet(alphabet)
    ensures Decoding(s, alphabet) == Some(bytes) <==> Trimmed(s) == Encoding(bytes, alphabet)
  {
    if Trimmed(s) == Encoding(bytes, alphabet) { TrimmedEncodingDecodes(s, bytes, alphabet); }
    if Decoding(s, alphabet) == Some(bytes) { DecodedIsEncoding(s, alphabet); }
  }

  lemma TrimmedEncodingDecodes(s: string, bytes: seq<Byte>, alphabet: string)
    requires IsAlphabet(alphabet)
    requires Trimmed(s) == Encoding(bytes, alphabet)
    ensures Decoding(s, alphabet) == Some(bytes)
  {
    var t, e := s[LeadingSpaces(s)..], Encoding(bytes, alphabet);
    TrimRightSplits(t);
    EncodingHasNoSpace(bytes, alphabet);
    assert t[..|e|] == e;
    WordLengthIs(t, |e|);
    SpacesAre(t[|e|..], |t| - |e|);
    ReadingOfEncoding(bytes, alphabet);
  }

  lemma DecodedIsEncoding(s: string, alphabet: string)
    requires IsAlphabet(alphabet)
    requires Decoding(s, alphabet).Some?
    ensures Trimmed(s) == Encoding(Decoding(s, alphabet).value, alphabet)
  {
    var t := s[LeadingSpaces(s)..];
    TrimRightIs(t, WordLength(t));
    EncodingOfReading(t[..WordLength(t)], alphabet);
  }

  /** Decoding undoes encoding. */
  lemma DecodingOfEncoding(bytes: seq<Byte>, alphabet: string)
    requires IsAlphabet(alphabet)
    ensures Decoding(Encoding(bytes, alphabet), alphabet) == Some(bytes)
  {
    var e := Encoding(bytes, alphabet);
    EncodingHasNoSpace(bytes, alphabet);
    SpacesAre(e, 0);
    assert e[0..] == e;
    TrimRightIs(e, |e|);
    TrimmedEncodingDecodes(e, bytes, alphabet);
  }

  // ----- in-place arithmetic on a digit buffer

  /** The digits `now` and a carry out of them hold `before * factor + addend`. */
  ghost predicate Holds(now: seq<nat>, carry: nat, base: nat, before: seq<nat>, factor: nat, addend: nat)
  {
    Value(now, base) + carry * Pow(base, |now|) == Value(before, base) * factor + addend
  }

  lemma HoldsAtStart(base: nat, factor: nat, addend: nat)
    ensures Holds([], addend, base, [], factor, addend)
  {
  }

  lemma DivMod(c: nat, base: nat)
    requires base > 0
    ensures c == c / base * base + c % base
  {
  }

  lemma PowNext(base: nat, n: nat)
    ensures Pow(base, n + 1) == base * Pow(base, n)
  {
  }

  lemma ValueCons(d: nat, rest: seq<nat>, base: nat)
    ensures Value([d] + rest, base) == d * Pow(base, |rest|) + Value(rest, base)
  {
    assert ([d] + rest)[1..] == rest;
  }

  /** A carry step keeps the number: `c % base` becomes a digit and `c / base` the carry. */
  lemma CarryStep(base: nat, now: seq<nat>, carry: nat, d: nat, before: seq<nat>, factor: nat, addend: nat, c: nat)
    requires base >= 2 && |now| == |before|
    requires Holds(now, carry, base, before, factor, addend)
    requires c == carry + factor * d
    ensures Holds([c % base] + now, c / base, base, [d] + before, factor, addend)
  {
    PowNext(base, |now|);
    hide Pow, Value;
    var q, r := c / base, c % base;
    DivMod(c, base);
    ValueCons(r, now, base);
    ValueCons(d, before, base);
    CarryArithmetic(base, Pow(base, |now|), Pow(base, |now| + 1), factor, addend, d, Value(before, base), Value(now, base), carry, q, r);
  }

  lemma CarryArithmetic(base: nat, p: nat, next: nat, factor: nat, addend: nat, d: nat, before: nat, now: nat, carry: nat, q: nat, r: nat)
    requires q * base + r == carry + factor * d && next == base * p
    requires now + carry * p == before * factor + addend
    ensures r * p + now + q * next == (d * p + before) * factor + addend
  {
    calc {
      r * p + q * next;
      { assert q * (base * p) == (q * base) * p; }
      (r + q * base) * p;
      (carry + factor * d) * p;
      { assert (factor * d) * p == (d * p) * factor; }
      carry * p + (d * p) * factor;
    }
  }

  /** In place: `digits := digits * factor + addend`. What does not fit is returned. */
  method MultiplyAdd(digits: array<nat>, base: nat, factor: nat, addend: nat) returns (carry: nat)
    requires base >= 2 && IsDigits(digits[..], base)
    modifies digits
    ensures IsDigits(digits[..], base)
    ensures Holds(digits[..], carry, base, old(digits[..]), factor, addend)
  {
    hide Holds;
    ghost var was := digits[..];
    carry := addend;
    var k := digits.Length;
    HoldsAtStart(base, factor, addend);
    assert digits[k..] == [] && was[k..] == [];
    while k > 0
      invariant 0 <= k <= digits.Length
      invariant digits[..k] == was[..k]
      invariant IsDigits(digits[k..], base)
      invariant Holds(digits[k..], carry, base, was[k..], factor, addend)
    {
      k := k - 1;
      ghost var tail, into := digits[k + 1..], carry;
      carry := carry + factor * digits[k];
      CarryStep(base, tail, into, was[k], was[k + 1..], factor, addend, carry);
      digits[k] := carry % base;
      carry := carry / base;
      assert digits[k..] == [digits[k]] + tail;
      assert was[k..] == [was[k]] + was[k + 1..];
    }
    assert digits[0..] == digits[..] && was[0..] == was;
  }

  /** The converted prefix grows by one digit and still fits, so nothing is carried out. */
  lemma AbsorbDigit(prefix: seq<nat>, d: nat, source: nat, buffer: seq<nat>, was: seq<nat>, carry: nat, target: nat, n: nat)
    requires IsDigits(prefix, source) && d < source && source >= 2
    requires Value(was, target) == Value(prefix, source)
    requires Holds(buffer, carry, target, was, source, d)
    requires |prefix| < n && Pow(source, n) < Pow(target, |buffer|)
    ensures carry == 0 && Value(buffer, target) == Value(prefix + [d], source)
  {
    hide Pow, Value;
    ValueAppend(prefix, d, source);
    ValueBound(prefix + [d], source);
    PowMonotone(source, |prefix| + 1, n);
    NoOverflow(Value(buffer, target), carry, Pow(target, |buffer|), Value(prefix + [d], source));
  }

  lemma NoOverflow(value: nat, carry: nat, limit: nat, total: nat)
    requires value + carry * limit == total < limit
    ensures carry == 0 && value == total
  {
    assert carry >= 1 ==> carry * limit >= limit;
  }

  lemma {:induction false} ValueOfZeroes(digits: seq<nat>, base: nat)
    requires forall i :: 0 <= i < |digits| ==> digits[i] == 0
    ensures Value(digits, base) == 0
  {
    if digits != [] { ValueOfZeroes(digits[1..], base); }
  }

  lemma StrippedDigits(buffer: seq<nat>, base: nat)
    requires base >= 2 && IsDigits(buffer, base)
    ensures buffer[Leading(buffer, 0)..] == Digits(Value(buffer, base), base)
  {
    var it := Leading(buffer, 0);
    ValueStrip(buffer, base, it);
    DigitsOfValue(buffer[it..], base);
  }

  method SkipZeroes(digits: array<nat>) returns (it: nat)
    ensures it == Leading(digits[..], 0)
  {
    it := 0;
    while it < digits.Length && digits[it] == 0
      invariant 0 <= it <= digits.Length && forall j :: 0 <= j < it ==> digits[j] == 0
    {
      it := it + 1;
    }
    LeadingIs(digits[..], 0, it);
  }

  // ----- the buffer sizes

  /** Buffer size used by the encoder, 138/100 being above log(256)/log(58). */
  lemma EncoderBufferSuffices(n: nat)
    ensures Pow(256, n) < Pow(58, n * 138 / 100 + 1)
  {
    assert Pow(256, 8) <= Pow(58, 11);
    hide Pow;
    LogarithmBound(256, 58, 8, 11, n, n * 138 / 100 + 1);
  }

  /** Buffer size used by the decoder, 733/1000 being above log(58)/log(256). */
  lemma DecoderBufferSuffices(n: nat)
    ensures Pow(58, n) < Pow(256, n * 733 / 1000 + 1)
  {
    DecoderPowers();
    hide Pow;
    LogarithmBound(58, 256, 71, 52, n, n * 733 / 1000 + 1);
  }

  lemma DecoderPowers()
    ensures Pow(58, 71) <= Pow(256, 52)
  {
    PowPow(58, 8, 8);
    PowPow(256, 8, 6);
    PowAdd(58, 64, 7);
    PowAdd(256, 48, 4);
    SmallPowers();
  }

  lemma SmallPowers()
    ensures Pow(Pow(58, 8), 8) * Pow(58, 7) <= Pow(Pow(256, 8), 6) * Pow(256, 4)
  {
    assert Pow(58, 8) == 128063081718016 && Pow(256, 8) == 18446744073709551616;
    assert Pow(128063081718016, 8) * Pow(58, 7) <= Pow(18446744073709551616, 6) * Pow(256, 4);
  }

  // ----- the encoder

  /** Converts all of `bytes` to base 58, in a buffer sized by the encoder's rule. */
  method ConvertBytes(bytes: seq<Byte>) returns (b58: array<nat>)
    ensures fresh(b58) && IsDigits(b58[..], 58)
    ensures Value(b58[..], 58) == Value(bytes, 256)
  {
    hide Pow, Value, Holds;
    b58 := new nat[|bytes| * 138 / 100 + 1](_ => 0);
    ValueOfZeroes(b58[..], 58);
    EncoderBufferSuffices(|bytes|);
    ValueEmpty(256);
    var i := 0;
    while i < |bytes|
      invariant 0 <= i <= |bytes|
      invariant IsDigits(b58[..], 58)
      invariant Value(b58[..], 58) == Value(bytes[..i], 256)
    {
      ghost var was := b58[..];
      var carry := MultiplyAdd(b58, 58, 256, bytes[i]);
      AbsorbDigit(bytes[..i], bytes[i], 256, b58[..], was, carry, 58, |bytes|);
      assert carry == 0;
      assert bytes[..i + 1] == bytes[..i] + [bytes[i]];
      i := i + 1;
    }
    assert bytes[..i] == bytes;
  }

  method Translate(b58: array<nat>, alphabet: string) returns (str: string)
    requires IsAlphabet(alphabet) && IsDigits(b58[..], 58)
    ensures IsDigits(b58[..][Leading(b58[..], 0)..], 58)
    ensures str == Symbols(b58[..][Leading(b58[..], 0)..], alphabet)
  {
    hide IndexOf, Leading;
    var it := SkipZeroes(b58);
    ghost var digits, first := b58[..][it..], it;
    str := "";
    while it < b58.Length
      invariant first <= it <= b58.Length
      invariant str == Symbols(digits[..it - first], alphabet)
    {
      str := str + [alphabet[b58[it]]];
      it := it + 1;
    }
    assert digits[..it - first] == digits;
  }

  method Encode(bytes: seq<Byte>, alphabet: string) returns (str: string)
    requires IsAlphabet(alphabet)
    ensures str == Encoding(bytes, alphabet)
  {
    // Skip and count leading zeroes.
    var zeroes := 0;
    while zeroes < |bytes| && bytes[zeroes] == 0
      invariant 0 <= zeroes <= |bytes| && forall i :: 0 <= i < zeroes ==> bytes[i] == 0
    {
      zeroes := zeroes + 1;
    }
    LeadingIs(bytes, 0, zeroes);
    var b58 := ConvertBytes(bytes[zeroes..]);
    StrippedDigits(b58[..], 58);
    var symbols := Translate(b58, alphabet);
    str := Copies(alphabet[0], zeroes) + symbols;
  }

  // ----- the decoder

  method SkipSpaces(s: string, from: nat) returns (p: nat)
    requires from <= |s|
    ensures p == from + LeadingSpaces(s[from..])
  {
    p := from;
    while p < |s| && IsSpace(s[p])
      invariant from <= p <= |s| && forall i :: from <= i < p ==> IsSpace(s[i])
    {
      p := p + 1;
    }
    SpacesAre(s[from..], p - from);
  }

  /** Reads symbols until white space, the end, or a character that is no symbol. */
  method ReadSymbols(s: string, alphabet: string) returns (b256: array<nat>, p: nat)
    requires IsAlphabet(alphabet)
    ensures fresh(b256) && IsDigits(b256[..], 256)
    ensures p <= |s| && IsOver(s[..p], alphabet)
    ensures forall i :: 0 <= i < p ==> !IsSpace(s[i])
    ensures p < |s| ==> IsSpace(s[p]) || s[p] !in alphabet
    ensures Value(b256[..], 256) == Value(Indices(s[..p], alphabet), 58)
  {
    hide Pow, Value, Holds;
    b256 := new nat[|s| * 733 / 1000 + 1](_ => 0);
    ValueOfZeroes(b256[..], 256);
    DecoderBufferSuffices(|s|);
    ValueEmpty(58);
    p := 0;
    assert Indices(s[..p], alphabet) == [];
    while p < |s| && !IsSpace(s[p])
      invariant 0 <= p <= |s| && IsOver(s[..p], alphabet)
      invariant forall i :: 0 <= i < p ==> !IsSpace(s[i])
      invariant IsDigits(b256[..], 256)
      invariant Value(b256[..], 256) == Value(Indices(s[..p], alphabet), 58)
    {
      var ch := IndexOf(alphabet, s[p]);
      if ch == |alphabet| {
        return;
      }
      ghost var was, prefix := b256[..], Indices(s[..p], alphabet);
      IndicesAndSymbols(s[..p], alphabet);
      var carry := MultiplyAdd(b256, 256, 58, ch);
      AbsorbDigit(prefix, ch, 58, b256[..], was, carry, 256, |s|);
      assert carry == 0;
      assert s[..p + 1] == s[..p] + [s[p]];
      assert Indices(s[..p + 1], alphabet) == prefix + [ch];
      p := p + 1;
    }
  }

  method Decode(s: string, alphabet: string) returns (bytes: Option<seq<Byte>>)
    requires IsAlphabet(alphabet)
    ensures bytes == Decoding(s, alphabet)
  {
    // Skip leading spaces.
    var start := SkipSpaces(s, 0);
    assert s[0..] == s;
    bytes := DecodeWord(s[start..], alphabet);
  }

  method DecodeWord(t: string, alphabet: string) returns (bytes: Option<seq<Byte>>)
    requires IsAlphabet(alphabet)
    ensures bytes == WordDecoding(t, alphabet)
  {
    // Skip and count leading zero symbols.
    var zeroes := 0;
    while zeroes < |t| && t[zeroes] == alphabet[0]
      invariant 0 <= zeroes <= |t| && forall i :: 0 <= i < zeroes ==> t[i] == alphabet[0]
    {
      zeroes := zeroes + 1;
    }
    var b256, p := ReadSymbols(t[zeroes..], alphabet);
    if zeroes + p < |t| && !IsSpace(t[zeroes + p]) {
      BadSymbol(t, zeroes, p, alphabet);
      return None;
    }
    WordOf(t, zeroes, p, alphabet);
    // Skip trailing spaces.
    var end := SkipSpaces(t, zeroes + p);
    if end < |t| {
      return None;
    }
    var tail := CopyDigits(b256);
    bytes := Some(Zeroes(zeroes) + tail);
  }

  /** The word found by the decoder: `zeroes` zero symbols and `p` more symbols. */
  ghost predicate Scanned(t: string, zeroes: nat, p: nat, alphabet: string)
    requires IsAlphabet(alphabet)
  {
    && zeroes + p <= |t|
    && (forall i :: 0 <= i < zeroes ==> t[i] == alphabet[0])
    && (p > 0 ==> t[zeroes] != alphabet[0])
    && IsOver(t[zeroes..][..p], alphabet)
  }

  lemma ScannedSymbols(t: string, zeroes: nat, p: nat, alphabet: string)
    requires IsAlphabet(alphabet) && Scanned(t, zeroes, p, alphabet)
    ensures IsOver(t[..zeroes + p], alphabet)
    ensures forall i :: 0 <= i < zeroes + p ==> !IsSpace(t[i])
  {
    hide IndexOf;
    var word := t[..zeroes + p];
    forall i | 0 <= i < |word| ensures word[i] in alphabet && !IsSpace(t[i]) {
      if zeroes <= i { assert word[i] == t[zeroes..][..p][i - zeroes]; }
    }
  }

  lemma WordOf(t: string, zeroes: nat, p: nat, alphabet: string)
    requires IsAlphabet(alphabet) && zeroes + p <= |t| && Scanned(t, zeroes, p, alphabet)
    requires zeroes + p < |t| ==> IsSpace(t[zeroes + p])
    ensures WordLength(t) == zeroes + p
    ensures IsOver(t[..zeroes + p], alphabet)
    ensures Reading(t[..zeroes + p], alphabet) == Zeroes(zeroes) + Digits(Value(Indices(t[zeroes..][..p], alphabet), 58), 256)
  {
    hide *;
    ScannedSymbols(t, zeroes, p, alphabet);
    WordLengthIs(t, zeroes + p);
    ScannedReading(t, zeroes, p, alphabet);
  }

  lemma ScannedReading(t: string, zeroes: nat, p: nat, alphabet: string)
    requires IsAlphabet(alphabet) && Scanned(t, zeroes, p, alphabet)
    ensures Reading(t[..zeroes + p], alphabet) == Zeroes(zeroes) + Digits(Value(Indices(t[zeroes..][..p], alphabet), 58), 256)
  {
    hide Reading, IsOver, IndexOf;
    assert t[..zeroes + p][zeroes..] == t[zeroes..][..p];
    ReadingParts(t[..zeroes + p], zeroes, alphabet);
  }

  lemma ReadingParts(word: string, zeroes: nat, alphabet: string)
    requires IsAlphabet(alphabet)
    requires zeroes <= |word| && forall i :: 0 <= i < zeroes ==> word[i] == alphabet[0]
    requires zeroes < |word| ==> word[zeroes] != alphabet[0]
    ensures Reading(word, alphabet) == Zeroes(zeroes) + Digits(Value(Indices(word[zeroes..], alphabet), 58), 256)
  {
    LeadingIs(word, alphabet[0], zeroes);
  }

  lemma BadSymbol(t: string, zeroes: nat, p: nat, alphabet: string)
    requires IsAlphabet(alphabet) && Scanned(t, zeroes, p, alphabet)
    requires zeroes + p < |t| && t[zeroes + p] !in alphabet && !IsSpace(t[zeroes + p])
    ensures !IsOver(t[..WordLength(t)], alphabet)
  {
    ScannedSymbols(t, zeroes, p, alphabet);
    assert zeroes + p < WordLength(t);
    assert t[..WordLength(t)][zeroes + p] == t[zeroes + p];
  }

  /** The digits of the buffer from its first nonzero one on. */
  method CopyDigits(b256: array<nat>) returns (digits: seq<Byte>)
    requires IsDigits(b256[..], 256)
    ensures digits == Digits(Value(b256[..], 256), 256)
  {
    var it := SkipZeroes(b256);
    StrippedDigits(b256[..], 256);
    ghost var first := it;
    digits := [];
    while it < b256.Length
      invariant first <= it <= b256.Length
      invariant digits == b256[..][first..it]
    {
      digits := digits + [b256[it]];
      it := it + 1;
    }
  }

  // ----- the checksummed form

  /** The first four bytes of a hash of the data; any function will do. */
  type Checksum = seq<Byte> -> seq<Byte>

  ghost predicate IsChecksum(h: Checksum)
  {
    forall data :: |h(data)| == 4
  }

  function CheckEncoding(data: seq<Byte>, h: Checksum, alphabet: string): string
    requires IsAlphabet(alphabet)
  {
    Encoding(data + h(data), alphabet)
  }

  method EncodeCheck(data: seq<Byte>, h: Checksum, alphabet: string) returns (str: string)
    requires IsAlphabet(alphabet)
    ensures str == CheckEncoding(data, h, alphabet)
  {
    str := Encode(data + h(data), alphabet);
  }

  /** Accepts exactly the checksummed encodings, up to white space around them, and returns their data. */
  method DecodeCheck(s: string, h: Checksum, alphabet: string) returns (data: Option<seq<Byte>>)
    requires IsAlphabet(alphabet) && IsChecksum(h)
    ensures forall d :: data == Some(d) <==> Trimmed(s) == CheckEncoding(d, h, alphabet)
  {
    var bytes := Decode(s, alphabet);
    forall d ensures bytes == Some(d + h(d)) <==> Trimmed(s) == CheckEncoding(d, h, alphabet) {
      DecodingExact(s, d + h(d), alphabet);
    }
    if bytes.None? || |bytes.value| < 4 {
      return None;
    }
    var n := |bytes.value| - 4;
    var body := bytes.value[..n];
    assert bytes.value == body + bytes.value[n..];
    forall d | bytes.value == d + h(d) ensures d == body && bytes.value[n..] == h(d) {
      assert (d + h(d))[..n] == d;
    }
    data := if bytes.value[n..] == h(body) then Some(body) else None;
  }

  // ----- the alphabet in use

  /** All alphanumeric characters except 0, I, O and l, in six runs of consecutive characters. */
  const BASE58: string := "123456789" + "ABCDEFGH" + "JKLMN" + "PQRSTUVWXYZ" + "abcdefghijk" + "mnopqrstuvwxyz"

  lemma Base58Ascends(i: nat)
    ensures |BASE58| == 58 && BASE58[0] == '1' && BASE58[57] == 'z'
    ensures i < 57 ==> BASE58[i] < BASE58[i + 1]
  {
    if i < 28 { FirstHalfAscends(i); }
  }

  lemma FirstHalfAscends(i: nat)
    requires i < 28
    ensures |BASE58| == 58 && BASE58[i] < BASE58[i + 1]
  {
  }

  lemma {:induction false} Base58Strict(i: nat, j: nat)
    requires i < j < |BASE58|
    ensures BASE58[i] < BASE58[j]
  {
    Base58Ascends(j - 1);
    if i + 1 < j { Base58Strict(i, j - 1); }
  }

  lemma Base58IsAlphabet()
    ensures IsAlphabet(BASE58) && BASE58[0] == '1'
  {
    Base58Ascends(0);
    forall i | 0 <= i < 58 ensures IndexOf(BASE58, BASE58[i]) == i {
      var first := IndexOf(BASE58, BASE58[i]);
      if first < i { Base58Strict(first, i); }
      if i < first < 58 { Base58Strict(i, first); }
    }
    forall c | c in BASE58 ensures !IsSpace(c) { Base58Symbol(c); }
  }

  lemma Base58Symbol(c: char)
    requires c in BASE58
    ensures !IsSpace(c)
  {
  }

  /** The symbols in order: digits but 0, capital letters but I and O, small letters but l. */
  lemma SymbolAt(i: nat)
    requires i < 58
    ensures |BASE58| == 58 && BASE58[i] ==
      if i < 9 then '1' + (i as char)
      else if i < 17 then 'A' + ((i - 9) as char)
      else if i < 22 then 'J' + ((i - 17) as char)
      else if i < 33 then 'P' + ((i - 22) as char)
      else if i < 44 then 'a' + ((i - 33) as char)
      else 'm' + ((i - 44) as char)
  {
    if i < 29 { EarlySymbolAt(i); }
  }

  lemma EarlySymbolAt(i: nat)
    requires i < 29
    ensures |BASE58| == 58 && BASE58[i] ==
      if i < 9 then '1' + (i as char)
      else if i < 17 then 'A' + ((i - 9) as char)
      else if i < 22 then 'J' + ((i - 17) as char)
      else 'P' + ((i - 22) as char)
  {
  }

  /** The number that is written is that of the bytes, and each leading zero byte adds one zero symbol. */
  lemma EncodingIsNumber(bytes: seq<Byte>, alphabet: string)
    requires IsAlphabet(alphabet)
    ensures var s := Encoding(bytes, alphabet);
      Leading(s, alphabet[0]) == Leading(bytes, 0) && Value(Indices(s, alphabet), 58) == Value(bytes, 256)
  {
    hide *;
    var zeroes := Leading(bytes, 0);
    var digits := EncodingParts(bytes, alphabet);
    IndicesOfParts(zeroes, digits, alphabet);
    BytesParts(bytes);
    LeadingZeroes(zeroes, digits, 58);
    LeadingZeroes(zeroes, bytes[zeroes..], 256);
    LeadingSymbols(Encoding(bytes, alphabet), digits, zeroes, alphabet);
  }

  lemma EncodingParts(bytes: seq<Byte>, alphabet: string) returns (digits: seq<nat>)
    requires IsAlphabet(alphabet)
    ensures var zeroes := Leading(bytes, 0);
      && zeroes <= |bytes| && IsDigits(digits, 58) && |alphabet| == 58 && (digits != [] ==> digits[0] != 0)
      && Value(digits, 58) == Value(bytes[zeroes..], 256)
      && Encoding(bytes, alphabet) == Copies(alphabet[0], zeroes) + Symbols(digits, alphabet)
  {
    hide Digits, Value;
    var n := Value(bytes[Leading(bytes, 0)..], 256);
    digits := Digits(n, 58);
    DigitsAreDigits(n, 58);
    ValueOfDigits(n, 58);
  }

  lemma IndicesOfParts(n: nat, digits: seq<nat>, alphabet: string)
    requires IsAlphabet(alphabet) && IsDigits(digits, 58)
    ensures |alphabet| == 58
      && Indices(Copies(alphabet[0], n) + Symbols(digits, alphabet), alphabet) == Zeroes(n) + digits
  {
    SymbolsAndIndices(digits, alphabet);
    var s, d := Copies(alphabet[0], n) + Symbols(digits, alphabet), Zeroes(n) + digits;
    forall i | 0 <= i < |s| ensures IndexOf(alphabet, s[i]) == d[i] {
      if i >= n { assert s[i] == Symbols(digits, alphabet)[i - n]; }
    }
  }

  lemma {:induction false} BytesParts(bytes: seq<Byte>)
    ensures var n := Leading(bytes, 0); n <= |bytes| && bytes == Zeroes(n) + bytes[n..]
  {
  }

  lemma LeadingSymbols(s: string, digits: seq<nat>, zeroes: nat, alphabet: string)
    requires IsAlphabet(alphabet) && IsDigits(digits, 58) && s == Copies(alphabet[0], zeroes) + Symbols(digits, alphabet)
    requires digits != [] ==> digits[0] != 0
    ensures Leading(s, alphabet[0]) == zeroes
  {
    if digits != [] { assert s[zeroes] == alphabet[digits[0]] && IndexOf(alphabet, alphabet[digits[0]]) == digits[0]; }
    LeadingIs(s, alphabet[0], zeroes);
  }

  lemma {:induction false} LeadingZeroes(n: nat, digits: seq<nat>, base: nat)
    ensures Value(Zeroes(n) + digits, base) == Value(digits, base)
  {
    if n == 0 {
      assert Zeroes(0) + digits == digits;
    } else {
      LeadingZeroes(n - 1, digits, base);
      assert Zeroes(n) + digits == [0] + (Zeroes(n - 1) + digits);
      ValueCons(0, Zeroes(n - 1) + digits, base);
    }
  }

  /** Three bytes of 0x62 are written as these four symbols. */
  lemma ThreeBytes()
    ensures IsAlphabet(BASE58) && Encoding([0x62, 0x62, 0x62], BASE58) == "a3gV"
  {
    hide *;
    Base58IsAlphabet();
    ThreeBytesNumber();
    DigitsAreDigits(6447714, 58);
    ThreeBytesDigits();
    FourSymbols();
    EncodingWithoutZeroes([0x62, 0x62, 0x62], BASE58);
  }

  lemma ThreeBytesNumber()
    ensures Value([0x62, 0x62, 0x62], 256) == 6447714
  {
    ValueCons(0x62, [], 256);
    ValueCons(0x62, [0x62], 256);
    ValueCons(0x62, [0x62, 0x62], 256);
    assert [0x62] + [0x62] == [0x62, 0x62] && [0x62] + [0x62, 0x62] == [0x62, 0x62, 0x62];
    assert Pow(256, 0) == 1 && Pow(256, 1) == 256 && Pow(256, 2) == 65536;
    assert Value([], 256) == 0;
  }

  lemma ThreeBytesDigits()
    ensures Digits(6447714, 58) == [33, 2, 39, 28]
  {
    assert Digits(33, 58) == [33];
    assert Digits(1916, 58) == [33, 2];
    assert Digits(111167, 58) == [33, 2, 39];
  }

  lemma FourSymbols()
    ensures |BASE58| == 58 && Symbols([33, 2, 39, 28], BASE58) == "a3gV"
  {
    SymbolAt(33);
    SymbolAt(2);
    SymbolAt(39);
    SymbolAt(28);
    hide BASE58;
  }

  lemma EncodingWithoutZeroes(bytes: seq<Byte>, alphabet: string)
    requires IsAlphabet(alphabet) && bytes != [] && bytes[0] != 0
    ensures |alphabet| == 58 && IsDigits(Digits(Value(bytes, 256), 58), 58)
    ensures Encoding(bytes, alphabet) == Symbols(Digits(Value(bytes, 256), 58), alphabet)
  {
    hide Digits, Value, Symbols;
    DigitsAreDigits(Value(bytes, 256), 58);
    LeadingIs(bytes, 0, 0);
    assert bytes[0..] == bytes && Copies(alphabet[0], 0) == [];
  }
}
