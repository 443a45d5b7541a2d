/** Numbers as text: what printf writes and strtol and its kin read, with the C widths. */
module ConfigText {
  import opened ConfigData

  predicate IsHexDigit(c: char) { IsDigit(c) || 'a' <= c <= 'f' || 'A' <= c <= 'F' }

  // The digit printf writes for d; letters are upper case.
  function DigitChar(d: nat): (c: char)
    requires d < 16
    ensures IsHexDigit(c) && (d < 10 ==> IsDigit(c)) && DigitVal(c) == d
  {
    if d < 10 then '0' + d as char else 'A' + (d - 10) as char
  }

  function DigitVal(c: char): nat
    requires IsHexDigit(c)
  {
    if IsDigit(c) then (c - '0') as nat
    else if 'a' <= c <= 'f' then (c - 'a') as nat + 10
    else (c - 'A') as nat + 10
  }

  function Digits(n: nat, base: nat): string
    requires 2 <= base <= 16
    decreases n
  {
    if n < base then [DigitChar(n)] else Digits(n / base, base) + [DigitChar(n % base)]
  }

  // The value of the hexadecimal or decimal digits of s.
  function ParseNat(s: string, base: nat): nat
  {
    if s == [] then 0
    else
      var c := s[|s| - 1];
      ParseNat(s[..|s| - 1], base) * base + if IsHexDigit(c) then DigitVal(c) else 0
  }

  predicate AllOf(s: string, p: char -> bool) { forall i | 0 <= i < |s| :: p(s[i]) }

  lemma ParseAppend(s: string, c: char, base: nat)
    requires IsHexDigit(c)
    ensures ParseNat(s + [c], base) == ParseNat(s, base) * base + DigitVal(c)
  {
    assert (s + [c])[..|s|] == s;
  }

  // One step of Digits, without division in sight of the callers.
  lemma LastDigit(n: nat, base: nat) returns (q: nat, r: nat)
    requires 2 <= base <= 16 && n >= base
    ensures r < base && q < n && n == q * base + r
    ensures Digits(n, base) == Digits(q, base) + [DigitChar(r)]
  {
    q, r := n / base, n % base;
  }

  lemma {:induction false} DigitsAre(n: nat, base: nat)
    requires 2 <= base <= 16
    ensures |Digits(n, base)| > 0 && AllOf(Digits(n, base), IsHexDigit)
    ensures base <= 10 ==> AllOf(Digits(n, base), IsDigit)
    decreases n
  {
    if n >= base {
      hide Digits;
      var q, r := LastDigit(n, base);
      DigitsAre(q, base);
    }
  }

  lemma {:induction false} ParseDigits(n: nat, base: nat)
    requires 2 <= base <= 16
    ensures ParseNat(Digits(n, base), base) == n
    decreases n
  {
    if n < base {
      ParseAppend([], DigitChar(n), base);
      assert [] + [DigitChar(n)] == [DigitChar(n)];
    } else {
      hide *;
      var q, r := LastDigit(n, base);
      ParseDigits(q, base);
      ParseAppend(Digits(q, base), DigitChar(r), base);
    }
  }

  const TWO32: int := 0x1_0000_0000
  const TWO64: int := 0x1_0000_0000_0000_0000

  // Conversion to a 32-bit or 64-bit signed integer.
  function Wrap32(n: int): int32 { (n + 0x8000_0000) % TWO32 - 0x8000_0000 }

  function Wrap64(n: int): int64 { (n + 0x8000_0000_0000_0000) % TWO64 - 0x8000_0000_0000_0000 }

  // Conversion to an unsigned integer, as printf's %X takes it.
  function Unsigned(n: int, modulus: int): nat
    requires modulus > 0
  {
    n % modulus
  }

  // strtol and strtoll saturate at the limits of 64 bits, strtoul and strtoull at 2^64 - 1.
  function ClampSigned(n: int): int64
  {
    if n < -0x8000_0000_0000_0000 then -0x8000_0000_0000_0000
    else if n > 0x7FFF_FFFF_FFFF_FFFF then 0x7FFF_FFFF_FFFF_FFFF
    else n
  }

  function ClampUnsigned(n: nat): nat { if n >= TWO64 then TWO64 - 1 else n }

  // %d and %lld.
  function Signed(n: int): string
  {
    if n < 0 then "-" + Digits(-n, 10) else Digits(n, 10)
  }

  // The number a decimal numeral with an optional sign denotes.
  function ParseSigned(s: string): int
  {
    if s != [] && s[0] == '-' then -(ParseNat(s[1..], 10) as int)
    else if s != [] && s[0] == '+' then ParseNat(s[1..], 10)
    else ParseNat(s, 10)
  }

  // atoi, atoll, and strtoul or strtoull in base 16 on the digits after 0x.
  function Atoi(s: string): int32 { Wrap32(ClampSigned(ParseSigned(s))) }

  function Atoll(s: string): int64 { ClampSigned(ParseSigned(s)) }

  function HexToInt(digits: string): int32 { Wrap32(ClampUnsigned(ParseNat(digits, 16))) }

  function HexToInt64(digits: string): int64 { Wrap64(ClampUnsigned(ParseNat(digits, 16))) }

  lemma ParsePrinted(n: int)
    ensures ParseSigned(Signed(n)) == n
  {
    var m := if n < 0 then -n else n;
    ParseDigits(m, 10);
    DigitsAre(m, 10);
    var d := Digits(m, 10);
    assert ("-" + d)[1..] == d;
    assert IsDigit(d[0]);
  }

  lemma HexPrinted(i: int32, l: int64)
    ensures HexToInt(Digits(Unsigned(i, TWO32), 16)) == i
    ensures HexToInt64(Digits(Unsigned(l, TWO64), 16)) == l
  {
    hide ParseNat, Digits;
    ParseDigits(Unsigned(i, TWO32), 16);
    ParseDigits(Unsigned(l, TWO64), 16);
    assert 0 <= Unsigned(i, TWO32) < TWO64;
    WrapInverse(i, TWO32);
    WrapInverse(l, TWO64);
  }

  lemma WrapInverse(n: int, modulus: int)
    requires modulus > 0 && modulus % 2 == 0 && -(modulus / 2) <= n < modulus / 2
    ensures Unsigned(n, modulus) == if n < 0 then n + modulus else n
    ensures (Unsigned(n, modulus) + modulus / 2) % modulus - modulus / 2 == n
  {
    if n < 0 {
      ModuloIs(n, -1, n + modulus, modulus);
      ModuloIs(n + modulus + modulus / 2, 1, n + modulus / 2, modulus);
    } else {
      ModuloIs(n, 0, n, modulus);
      ModuloIs(n + modulus / 2, 0, n + modulus / 2, modulus);
    }
  }

  lemma ModuloIs(n: int, q: int, r: int, modulus: int)
    requires n == q * modulus + r && 0 <= r < modulus
    ensures n % modulus == r
  {
    SmallMultiple(n / modulus - q, r - n % modulus, modulus);
  }

  lemma SmallMultiple(k: int, d: int, m: int)
    requires k * m == d && -m < d < m
    ensures d == 0
  {
    if k > 0 {
      NonNegative(k - 1, m);
    } else if k < 0 {
      NonNegative(-k - 1, m);
    }
  }

  lemma NonNegative(a: nat, m: nat)
    ensures a * m >= 0
  {
  }
}
