/** Powers and positional numbers: the arithmetic behind the base conversion. */
module Radix {

  function Pow(b: nat, e: nat): nat
  {
    if e == 0 then 1 else b * Pow(b, e - 1)
  }

  /** The number written by `digits` in `base`, most significant digit first. */
  function Value(digits: seq<nat>, base: nat): nat
  {
    if digits == [] then 0 else digits[0] * Pow(base, |digits| - 1) + Value(digits[1..], base)
  }

  ghost predicate IsDigits(digits: seq<nat>, base: nat)
  {
    forall i :: 0 <= i < |digits| ==> digits[i] < base
  }

  /** The shortest digit string of `n`: it has no leading zero, and zero has no digits. */
  function Digits(n: nat, base: nat): seq<nat>
    requires base >= 2
  {
    if n == 0 then [] else Digits(n / base, base) + [n % base]
  }

  /** How many copies of `x` the sequence starts with. */
  function Leading<T(==)>(s: seq<T>, x: T): (n: nat)
    ensures n <= |s|
    ensures forall i :: 0 <= i < n ==> s[i] == x
    ensures n < |s| ==> s[n] != x
  {
    if s == [] || s[0] != x then 0 else 1 + Leading(s[1..], x)
  }

  lemma {:induction false} LeadingIs<T>(s: seq<T>, x: T, n: nat)
    requires n <= |s| && (forall i :: 0 <= i < n ==> s[i] == x) && (n < |s| ==> s[n] != x)
    ensures Leading(s, x) == n
  {
    if n > 0 { LeadingIs(s[1..], x, n - 1); }
  }

  // ----- powers

  lemma {:induction false} PowPositive(b: nat, e: nat)
    requires b > 0
    ensures Pow(b, e) > 0
  {
    if e > 0 { PowPositive(b, e - 1); }
  }

  lemma {:induction false} PowAdd(b: nat, m: nat, n: nat)
    ensures Pow(b, m + n) == Pow(b, m) * Pow(b, n)
  {
    if m > 0 {
      PowAdd(b, m - 1, n);
      assert b * (Pow(b, m - 1) * Pow(b, n)) == (b * Pow(b, m - 1)) * Pow(b, n);
    }
  }

  lemma {:induction false} PowPow(b: nat, m: nat, n: nat)
    ensures Pow(Pow(b, m), n) == Pow(b, m * n)
  {
    if n == 0 {
      assert m * n == 0;
    } else {
      PowPow(b, m, n - 1);
      PowAdd(b, m, m * (n - 1));
      assert m * n == m + m * (n - 1);
    }
  }

  lemma {:induction false} PowMonotoneBase(a: nat, b: nat, e: nat)
    requires a <= b
    ensures Pow(a, e) <= Pow(b, e)
  {
    if e > 0 {
      PowMonotoneBase(a, b, e - 1);
      MulMonotone(a, b, Pow(a, e - 1), Pow(b, e - 1));
    }
  }

  lemma MulMonotone(a: nat, b: nat, x: nat, y: nat)
    requires a <= b && x <= y
    ensures a * x <= b * y
  {
    assert a * x <= a * y;
    assert a * y <= b * y;
  }

  lemma {:induction false} PowMonotone(b: nat, m: nat, n: nat)
    requires b > 0 && m <= n
    ensures Pow(b, m) <= Pow(b, n)
  {
    if m < n {
      PowMonotone(b, m, n - 1);
      MulMonotone(1, b, Pow(b, n - 1), Pow(b, n - 1));
    }
  }

  lemma PowStrict(b: nat, m: nat, n: nat)
    requires b >= 2 && m < n
    ensures Pow(b, m) < Pow(b, n)
  {
    PowMonotone(b, m, n - 1);
    PowPositive(b, n - 1);
    MulMonotone(2, b, Pow(b, n - 1), Pow(b, n - 1));
  }

  /**
   * A rational bound on a logarithm gives enough digits at every length: when a^p <= b^q, that is
   * log_b(a) <= q/p, a number of n digits in base a fits in s digits of base b as soon as s/n > q/p.
   */
  lemma {:induction false} LogarithmBound(a: nat, b: nat, p: nat, q: nat, n: nat, s: nat)
    requires a >= 2 && b >= 2 && p > 0
    requires Pow(a, p) <= Pow(b, q)
    requires q * n < p * s
    ensures Pow(a, n) < Pow(b, s)
  {
    calc {
      Pow(Pow(a, n), p);
      { PowPow(a, n, p); PowPow(a, p, n); assert n * p == p * n; }
      Pow(Pow(a, p), n);
    <= { PowMonotoneBase(Pow(a, p), Pow(b, q), n); }
      Pow(Pow(b, q), n);
      { PowPow(b, q, n); }
      Pow(b, q * n);
    <  { PowStrict(b, q * n, p * s); }
      Pow(b, p * s);
      { PowPow(b, s, p); assert p * s == s * p; }
      Pow(Pow(b, s), p);
    }
    if Pow(b, s) <= Pow(a, n) { PowMonotoneBase(Pow(b, s), Pow(a, n), p); }
  }

  // ----- positional notation

  lemma {:induction false} ValueAppend(digits: seq<nat>, d: nat, base: nat)
    ensures Value(digits + [d], base) == Value(digits, base) * base + d
  {
    if digits == [] {
      assert digits + [d] == [d];
      assert Value([d], base) == d * Pow(base, 0) + Value([], base);
    } else {
      var rest := digits[1..];
      ValueAppend(rest, d, base);
      assert (digits + [d])[1..] == rest + [d];
      ShiftDigit(digits[0], Pow(base, |digits| - 1), base, Value(rest, base));
    }
  }

  lemma ShiftDigit(d: nat, p: nat, base: nat, rest: nat)
    ensures d * (base * p) + rest * base == (d * p + rest) * base
  {
    assert d * (base * p) == (d * p) * base;
  }

  lemma {:induction false} ValueBound(digits: seq<nat>, base: nat)
    requires IsDigits(digits, base)
    ensures Value(digits, base) < Pow(base, |digits|)
  {
    if digits != [] {
      ValueBound(digits[1..], base);
      LeadDigitBound(digits[0], base, Pow(base, |digits| - 1));
    }
  }

  lemma LeadDigitBound(d: nat, base: nat, p: nat)
    requires d < base
    ensures d * p + p <= base * p
  {
    MulMonotone(d + 1, base, p, p);
  }

  lemma {:induction false} ValueStrip(digits: seq<nat>, base: nat, n: nat)
    requires n <= |digits| && forall i :: 0 <= i < n ==> digits[i] == 0
    ensures Value(digits[n..], base) == Value(digits, base)
  {
    if n == 0 {
      assert digits[0..] == digits;
    } else {
      ValueStrip(digits[1..], base, n - 1);
      assert digits[1..][n - 1..] == digits[n..];
    }
  }

  lemma {:induction false} ValueOfDigits(n: nat, base: nat)
    requires base >= 2
    ensures Value(Digits(n, base), base) == n
  {
    if n > 0 {
      var q, r := n / base, n % base;
      QuotientSmaller(n, base);
      ValueOfDigits(q, base);
      ValueAppend(Digits(q, base), r, base);
    }
  }

  lemma {:induction false} DigitsAreDigits(n: nat, base: nat)
    requires base >= 2
    ensures IsDigits(Digits(n, base), base)
    ensures if n == 0 then Digits(n, base) == [] else Digits(n, base) != [] && Digits(n, base)[0] != 0
  {
    if n > 0 {
      var q := n / base;
      QuotientSmaller(n, base);
      DigitsAreDigits(q, base);
      assert q == 0 ==> Digits(q, base) == [];
    }
  }

  lemma QuotientSmaller(n: nat, base: nat)
    requires base >= 2 && n > 0
    ensures n / base < n && n == n / base * base + n % base
  {
    MulMonotone(2, base, n / base, n / base);
  }

  lemma ValuePositive(digits: seq<nat>, base: nat)
    requires base > 0 && digits != [] && digits[0] != 0
    ensures Value(digits, base) > 0
  {
    PowPositive(base, |digits| - 1);
    assert digits[0] * Pow(base, |digits| - 1) >= Pow(base, |digits| - 1);
  }

  lemma ValueEmpty(base: nat)
    ensures Value([], base) == 0
  {
  }

  /** The digit string of a number is unique once it has no leading zero. */
  lemma {:induction false} DigitsOfValue(digits: seq<nat>, base: nat)
    requires base >= 2 && IsDigits(digits, base)
    requires digits == [] || digits[0] != 0
    ensures Digits(Value(digits, base), base) == digits
  {
    if digits != [] {
      var most, last := digits[..|digits| - 1], digits[|digits| - 1];
      assert digits == most + [last];
      ValuePositive(digits, base);
      DigitsOfValue(most, base);
      ValueAppend(most, last, base);
      DivModOf(Value(most, base), last, base);
    }
  }

  lemma DivModOf(q: nat, r: nat, base: nat)
    requires r < base
    ensures (q * base + r) / base == q && (q * base + r) % base == r
  {
    var n := q * base + r;
    assert n == n / base * base + n % base;
    var e := n / base - q;
    assert e * base == r - n % base;
    assert e >= 1 ==> e * base >= base;
    assert e <= -1 ==> -e * base >= base;
  }
}
