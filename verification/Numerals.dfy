/**
 Numbers as text in a base up to sixteen: what `printf` prints and `strtol` reads.
 */
module Numerals {
  function DigitChar(d: nat): char
    requires d < 16
  {
    "0123456789abcdef"[d]
  }

  /** The value of a digit, or 16. */
  function CharDigit(c: char): nat {
    if '0' <= c <= '9' then c as int - '0' as int
    else if 'a' <= c <= 'f' then c as int - 'a' as int + 10
    else if 'A' <= c <= 'F' then c as int - 'A' as int + 10
    else 16
  }

  lemma DigitRoundTrip(d: nat)
    requires d < 16
    ensures CharDigit(DigitChar(d)) == d && DigitChar(d) != '-' && DigitChar(d) != '+'
      && (d > 0 ==> DigitChar(d) != '0')
  {}

  /** The characters of the digits, as C numbers them. */
  lemma DigitsAre(d: nat)
    requires d < 16
    ensures d < 10 ==> DigitChar(d) as int == '0' as int + d
    ensures d >= 10 ==> DigitChar(d) as int == 'a' as int + d - 10
  {}

  predicate AllDigits(s: string, base: nat := 10) { forall i :: 0 <= i < |s| ==> CharDigit(s[i]) < base }

  /** The number a string of digits stands for. */
  function Value(s: string, base: nat := 10): nat
    requires AllDigits(s, base)
  {
    if s == [] then 0 else base * Value(s[..|s| - 1], base) + CharDigit(s[|s| - 1])
  }

  /** `%lu`, or `%lx` in base 16 */
  function Print(n: nat, base: nat := 10): (s: string)
    requires base == 10 || base == 16
    ensures s != []
  {
    if n < base then [DigitChar(n)] else Print(n / base, base) + [DigitChar(n % base)]
  }

  /** One more digit. */
  lemma Snoc(s: string, c: char, base: nat)
    ensures AllDigits(s + [c], base) <==> AllDigits(s, base) && CharDigit(c) < base
    ensures AllDigits(s + [c], base) ==> Value(s + [c], base) == base * Value(s, base) + CharDigit(c)
  {
    assert (s + [c])[..|s|] == s && (s + [c])[|s|] == c;
    if AllDigits(s + [c], base) {
      forall i | 0 <= i < |s| ensures CharDigit(s[i]) < base { assert (s + [c])[i] == s[i]; }
    }
  }

  lemma One(c: char, base: nat)
    ensures AllDigits([c], base) <==> CharDigit(c) < base
    ensures AllDigits([c], base) ==> Value([c], base) == CharDigit(c)
  {
    assert [] + [c] == [c];
    Snoc([], c, base);
  }

  /** Reading is the inverse of printing. */
  lemma {:induction false} PrintValue(n: nat, base: nat := 10)
    requires base == 10 || base == 16
    ensures AllDigits(Print(n, base), base) && Value(Print(n, base), base) == n
  {
    DigitRoundTrip(n % base);
    if n < base {
      One(DigitChar(n), base);
    } else {
      PrintValue(n / base, base);
      Snoc(Print(n / base, base), DigitChar(n % base), base);
    }
  }
}
