/**
 Decimal fractions as scaled integers: `format_decimal` of lib/utils.c prints them and
 `read_decimal_unsigned_long_func` of lib/parser.c reads them.
 */
module Decimal {
  import opened Arith
  import opened Numerals

  /** One more than the largest `unsigned long`, of 64 bits. */
  const LIMIT: nat := 0x1_0000_0000_0000_0000

  function Pow10(n: nat): (r: nat)
    ensures r > 0
  {
    if n == 0 then 1 else 10 * Pow10(n - 1)
  }

  // ----- Printing

  /** `%*.*lu` with width and precision `w`, for a number of at most `w` digits */
  function Padded(n: nat, w: nat): string { if w == 0 then "" else Padded(n / 10, w - 1) + [DigitChar(n % 10)] }

  function Format(v: nat, dp: nat): string { Print(Quotient(v, Pow10(dp))) + "." + Padded(Remainder(v, Pow10(dp)), dp) }

  lemma {:induction false} PaddedValue(n: nat, w: nat)
    requires n < Pow10(w)
    ensures AllDigits(Padded(n, w)) && Value(Padded(n, w)) == n && |Padded(n, w)| == w
  {
    if w > 0 {
      PaddedValue(n / 10, w - 1);
      DigitRoundTrip(n % 10);
      Snoc(Padded(n / 10, w - 1), DigitChar(n % 10), 10);
    }
  }

  lemma {:induction false} PrintLength(n: nat, w: nat)
    requires n < Pow10(w) && w > 0
    ensures |Print(n)| <= w
  {
    if n >= 10 { PrintLength(n / 10, w - 1); }
  }

  /** The buffer of 22 bytes is never too short. */
  lemma {:induction false} FormatFits(v: nat, dp: nat)
    requires v < LIMIT && dp <= 9
    ensures |Format(v, dp)| <= 21
  {
    WholeBound(v, dp);
    PrintLength(Quotient(v, Pow10(dp)), 20 - dp);
    DivMod(v, Pow10(dp));
    PaddedValue(Remainder(v, Pow10(dp)), dp);
  }

  lemma {:induction false} WholeBound(v: nat, dp: nat)
    requires v < LIMIT && dp <= 9
    ensures Quotient(v, Pow10(dp)) < Pow10(20 - dp)
  {
    var f, g := Pow10(dp), Pow10(20 - dp);
    assert v < f * g by {
      TenToTwenty();
      PowSum(dp, 20 - dp);
    }
    DivBound(v, f, g);
  }

  lemma {:induction false} PowSum(a: nat, b: nat)
    ensures Pow10(a + b) == Pow10(a) * Pow10(b)
  {
    if a > 0 { PowSum(a - 1, b); }
  }

  lemma DivBound(v: nat, f: nat, g: nat)
    requires f > 0 && v < f * g
    ensures Quotient(v, f) < g
  {
    DivMod(v, f);
    Gap(g, Quotient(v, f), f);
    assert g * f == f * g;
  }

  lemma TenToTwenty()
    ensures Pow10(20) > LIMIT
  {
    assert Pow10(1) == 10 && Pow10(2) == 100 && Pow10(3) == 1000 && Pow10(4) == 10000 && Pow10(5) == 100000;
    PowSum(5, 5);
    PowSum(10, 10);
  }

  // ----- The factor and the buffer of `format_decimal`

  /** One more than the largest `unsigned`. */
  const WORD: nat := 0x1_0000_0000

  /** Ten to the `dp`, kept in the 32 bits of an `unsigned`. */
  function Factor(dp: nat): nat { if dp == 0 then 1 else Remainder(Factor(dp - 1) * 10, WORD) }

  lemma TenTimesOdd(k: nat, p: nat, q: nat, g: nat, m: nat)
    requires 5 * k == q * g + m
    ensures k * p * 10 == q * (g * (2 * p)) + m * (2 * p)
  {
    calc {
      k * p * 10;
      (5 * k) * (2 * p);
      (q * g + m) * (2 * p);
      (q * g) * (2 * p) + m * (2 * p);
      q * (g * (2 * p)) + m * (2 * p);
    }
  }

  lemma OddRest(n: nat, q: nat, h: nat, m: nat)
    requires n % 2 == 1 && n == q * (2 * h) + m
    ensures m % 2 == 1
  {
    assert q * (2 * h) == 2 * (q * h);
  }

  /** An odd multiple of `p`, times ten, is an odd multiple of `2 * p` modulo an even multiple of that. */
  lemma {:induction false} OddStep(k: nat, p: nat, h: nat, w: nat) returns (m: nat)
    requires k % 2 == 1 && p > 0 && h > 0 && (2 * h) * (2 * p) == w
    ensures w > 0 && m % 2 == 1 && Remainder(k * p * 10, w) == m * (2 * p)
  {
    var q := Quotient(5 * k, 2 * h);
    m := Remainder(5 * k, 2 * h);
    DivMod(5 * k, 2 * h);
    OddRest(5 * k, q, h, m);
    TenTimesOdd(k, p, q, 2 * h, m);
    Gap(m, 2 * h, 2 * p);
    RemainderIs(k * p * 10, w, q, m * (2 * p));
  }

  lemma WordIs(a: nat, b: nat)
    requires a + b == 32
    ensures Pow2(a) * Pow2(b) == WORD
  {
    assert Pow2(8) == 256;
    Pow2Add(8, 8);
    Pow2Add(16, 16);
    Pow2Add(a, b);
  }

  /** The factor is an odd number times two to the `dp`. */
  lemma {:induction false} FactorOdd(dp: nat) returns (m: nat)
    requires dp < 32
    ensures m % 2 == 1 && Factor(dp) == m * Pow2(dp)
  {
    if dp == 0 {
      m := 1;
    } else {
      var k := FactorOdd(dp - 1);
      WordIs(32 - dp, dp);
      PowPositive(dp - 1);
      PowPositive(31 - dp);
      m := OddStep(k, Pow2(dp - 1), Pow2(31 - dp), WORD);
    }
  }

  lemma FactorPositive(dp: nat)
    requires dp < 32
    ensures Factor(dp) > 0
  {
    var m := FactorOdd(dp);
    PowPositive(dp);
    Gap(0, m, Pow2(dp));
  }

  lemma OnceOnly(m: nat, p: nat, n: nat)
    requires m % 2 == 1 && n == m * p && n < 2 * p
    ensures n == p
  {
    if m > 1 { Gap(1, m, p); }
  }

  lemma FactorLast()
    ensures Factor(32) == 0
  {
    var m := FactorOdd(31);
    assert 2 * Pow2(31) == WORD by { WordIs(1, 31); }
    OnceOnly(m, Pow2(31), Factor(31));
    RemainderIs(Factor(31) * 10, WORD, 5, 0);
  }

  /** The factor is zero, and dividing by it undefined, exactly from 32 places on. */
  lemma {:induction false} FactorVanishes(dp: nat)
    ensures Factor(dp) == 0 <==> dp >= 32
  {
    if dp < 32 {
      FactorPositive(dp);
    } else if dp == 32 {
      FactorLast();
    } else {
      FactorVanishes(dp - 1);
    }
  }

  lemma {:induction false} FactorSmall(dp: nat)
    requires dp <= 9
    ensures Factor(dp) == Pow10(dp) <= 1000000000
  {
    if dp > 0 {
      FactorSmall(dp - 1);
      PowGrows(dp, 9);
      NineZeros();
    }
  }

  lemma NineZeros()
    ensures Pow10(9) == 1000000000
  {
    assert Pow10(3) == 1000;
    PowSum(3, 3);
    PowSum(3, 6);
  }

  lemma {:induction false} PowGrows(a: nat, b: nat)
    requires a <= b
    ensures Pow10(a) <= Pow10(b)
  {
    if a < b { PowGrows(a, b - 1); }
  }

  /** From ten places on the factor is less than half of what it should be. */
  lemma FactorLarge(dp: nat)
    requires 10 <= dp < 32
    ensures 0 < Factor(dp) && 2 * Factor(dp) < Pow10(dp)
  {
    FactorVanishes(dp);
    NineZeros();
    assert Pow10(10) == 10 * Pow10(9);
    PowGrows(10, dp);
    assert Factor(dp) < WORD;
  }

  /** What the 22 bytes of the buffer hold of `s`. */
  function Clip(s: string): string { if |s| > 21 then s[..21] else s }

  /** What is printed: the integer part, a point, the remainder to `dp` digits. */
  function Written(v: nat, factor: nat, dp: nat): string
    requires factor > 0
  {
    Clip(Print(Quotient(v, factor)) + "." + Padded(Remainder(v, factor), dp))
  }

  lemma {:induction false} WrittenSmall(v: nat, dp: nat)
    requires v < LIMIT && dp <= 9
    ensures 0 < Factor(dp) && Written(v, Factor(dp), dp) == Format(v, dp)
  {
    FactorSmall(dp);
    FormatFits(v, dp);
  }

  /** Too many places for the buffer. */
  lemma {:induction false} WrittenLong(v: nat, dp: nat)
    requires 20 <= dp < 32
    ensures 0 < Factor(dp) && Written(v, Factor(dp), dp) != Format(v, dp)
  {
    FactorLarge(dp);
    DivMod(v, Pow10(dp));
    PaddedValue(Remainder(v, Pow10(dp)), dp);
  }

  lemma {:induction false} WrittenBelow(v: nat, dp: nat)
    requires 10 <= dp <= 19 && v < Factor(dp)
    ensures Written(v, Factor(dp), dp) == Format(v, dp)
  {
    FactorLarge(dp);
    QuotientIs(v, Factor(dp), 0, v);
    QuotientIs(v, Pow10(dp), 0, v);
    DivMod(v, Factor(dp));
    DivMod(v, Pow10(dp));
    PaddedValue(v, dp);
  }

  lemma TwiceAsMuch(w: nat, f: nat, p: nat)
    requires w >= 1 && 2 * f < p
    ensures (w + 1) * f <= w * p
  {
    Gap(2 * f, p, w);
    assert (w + 1) * f == w * f + f && (2 * f) * w == w * f + w * f && p * w == w * p;
    if w > 1 { Gap(1, w, f); }
  }

  /** The integer part comes out too large. */
  lemma {:induction false} WholeGrows(v: nat, f: nat, p: nat)
    requires 0 < f <= v && 2 * f < p
    ensures Quotient(v, p) < Quotient(v, f) <= v
  {
    var w := Quotient(v, p);
    DivMod(v, p);
    if w == 0 { AtLeast(v, f, 1); } else { TwiceAsMuch(w, f, p); AtLeast(v, f, w + 1); }
    DivMod(v, f);
    Gap(0, f, Quotient(v, f));
    if f > 1 { Gap(1, f, Quotient(v, f)); }
    assert f * Quotient(v, f) == Quotient(v, f) * f;
  }

  lemma {:induction false} WholeDiffers(v: nat, f: nat, p: nat)
    requires v < LIMIT && 0 < f <= v && 2 * f < p
    ensures var a, c := Print(Quotient(v, f)), Print(Quotient(v, p));
      AllDigits(a) && AllDigits(c) && |a| <= 20 && a != c
  {
    WholeGrows(v, f, p);
    PrintValue(Quotient(v, f));
    PrintValue(Quotient(v, p));
    TenToTwenty();
    PrintLength(Quotient(v, f), 20);
  }

  lemma {:induction false} WrittenAbove(v: nat, dp: nat)
    requires v < LIMIT && 10 <= dp <= 19 && Factor(dp) <= v
    ensures 0 < Factor(dp) && Written(v, Factor(dp), dp) != Format(v, dp)
  {
    FactorLarge(dp);
    WholeDiffers(v, Factor(dp), Pow10(dp));
    PointsDiffer(Print(Quotient(v, Factor(dp))), Padded(Remainder(v, Factor(dp)), dp),
                 Print(Quotient(v, Pow10(dp))), Padded(Remainder(v, Pow10(dp)), dp));
  }

  lemma PointsDiffer(a: string, b: string, c: string, d: string)
    requires AllDigits(a) && AllDigits(c) && |a| <= 20 && a != c
    ensures Clip(a + "." + b) != c + "." + d
  {
    Clipped(a, b);
    DotAt(c, d);
    assert (c + "." + d)[..|c|] == c;
  }

  /** The point and what is before it survive the clipping. */
  lemma {:induction false} Clipped(a: string, b: string)
    requires AllDigits(a) && |a| <= 20
    ensures var s := Clip(a + "." + b); Dot(s) == |a| && s[..|a|] == a
  {
    var s := Clip(a + "." + b);
    assert s == a + "." + s[|a| + 1..];
    DotAt(a, s[|a| + 1..]);
  }

  /** `format_decimal`; it prints the fraction if the factor and the text do not overflow, and only then. */
  method FormatDecimal(val: nat, dp: int) returns (buf: string)
    requires val < LIMIT && dp < 32
    ensures dp >= 0 ==> (buf == Format(val, dp) <==> dp <= 9 || (dp <= 19 && val < Factor(dp)))
    ensures dp < 0 ==> buf == Clip(Print(val) + ".0" + seq(-1 - dp, _ => ' '))
  {
    var factor := 1;
    var i := 0;
    while i < dp
      invariant 0 <= i && (i <= dp || i == 0) && factor == Factor(i)
    {
      factor := Remainder(factor * 10, WORD);
      i := i + 1;
    }
    if dp >= 0 {
      FormatExact(val, dp);
      buf := Clip(Print(Quotient(val, factor)) + "." + Padded(Remainder(val, factor), dp));
    } else {
      buf := Clip(Print(Quotient(val, factor)) + "." + Print(Remainder(val, factor)) + seq(-1 - dp, _ => ' '));
    }
  }

  lemma {:induction false} FormatExact(v: nat, dp: nat)
    requires v < LIMIT && dp < 32
    ensures 0 < Factor(dp)
    ensures Written(v, Factor(dp), dp) == Format(v, dp) <==> dp <= 9 || (dp <= 19 && v < Factor(dp))
  {
    if dp <= 9 {
      WrittenSmall(v, dp);
    } else if dp > 19 {
      WrittenLong(v, dp);
    } else if v < Factor(dp) {
      WrittenBelow(v, dp);
    } else {
      WrittenAbove(v, dp);
    }
  }

  lemma {:induction false} PaddedZero(w: nat)
    ensures Padded(0, w) == Nulls(w)
  {
    if w > 0 { PaddedZero(w - 1); }
  }

  lemma FactorTen()
    ensures Factor(10) == 1410065408
  {
    FactorSmall(9);
    NineZeros();
    RemainderIs(Factor(9) * 10, WORD, 2, 1410065408);
  }

  /** The factor itself is printed as one; with ten places, 0.1410065408 comes out as 1.0000000000. */
  lemma {:induction false} PrintedAsOne(v: nat, dp: nat)
    requires 10 <= dp <= 19 && v == Factor(dp)
    ensures v > 0 && Written(v, Factor(dp), dp) == Print(1) + "." + Nulls(dp)
      && Format(v, dp) == Print(0) + "." + Padded(v, dp)
  {
    FactorLarge(dp);
    QuotientIs(v, v, 1, 0);
    RemainderIs(v, v, 1, 0);
    QuotientIs(v, Pow10(dp), 0, v);
    RemainderIs(v, Pow10(dp), 0, v);
    PaddedZero(dp);
    Zeros(dp);
  }

  // ----- The digits of a concatenation

  lemma {:induction false} ValueConcat(a: string, b: string)
    requires AllDigits(a) && AllDigits(b)
    ensures AllDigits(a + b) && Value(a + b) == Value(a) * Pow10(|b|) + Value(b)
  {
    if b == [] {
      assert a + b == a;
    } else {
      var b', c := b[..|b| - 1], b[|b| - 1];
      assert b == b' + [c] && a + b == (a + b') + [c];
      Snoc(b', c, 10);
      ValueConcat(a, b');
      Snoc(a + b', c, 10);
      TenTimes(Value(a), Pow10(|b'|), Value(b'), CharDigit(c));
    }
  }

  lemma TenTimes(a: nat, p: nat, b: nat, d: nat)
    ensures 10 * (a * p + b) + d == a * (10 * p) + (10 * b + d)
  {}

  lemma {:induction false} ValueBound(s: string)
    requires AllDigits(s)
    ensures Value(s) < Pow10(|s|)
  {
    if s != [] { ValueBound(s[..|s| - 1]); }
  }

  lemma {:induction false} Zeros(n: nat)
    ensures AllDigits(Nulls(n)) && Value(Nulls(n)) == 0 && |Nulls(n)| == n
  {
    if n > 0 {
      Zeros(n - 1);
      assert Nulls(n)[..n - 1] == Nulls(n - 1);
    }
  }

  /** `n` times the digit zero. */
  function Nulls(n: nat): string { if n == 0 then "" else Nulls(n - 1) + "0" }

  // ----- Reading

  predicate IsSpace(c: char) { c == ' ' || '\t' <= c <= '\r' }

  /** How many leading characters are spaces. */
  function Spaces(s: string): (n: nat)
    ensures n <= |s|
  {
    if s == [] || !IsSpace(s[0]) then 0 else 1 + Spaces(s[1..])
  }

  /** How many leading characters are digits. */
  function Digits(s: string): (n: nat)
    ensures n <= |s| && AllDigits(s[..n])
  {
    if s == [] || CharDigit(s[0]) >= 10 then 0
    else
      var n := Digits(s[1..]);
      assert s[..n + 1] == [s[0]] + s[1..][..n];
      1 + n
  }

  /** What `strtoull(s, &end, 10)` returns, whether `*end` is the terminating nul, and whether it sets ERANGE. */
  datatype Parse = Parse(val: nat, atEnd: bool, range: bool)

  function Strtoull(s: string): Parse {
    var t := s[Spaces(s)..];
    var minus := t != [] && t[0] == '-';
    var u := if t != [] && (t[0] == '-' || t[0] == '+') then t[1..] else t;
    var n := Digits(u);
    if n == 0 then Parse(0, s == [], false)
    else
      var v := Value(u[..n]);
      if v >= LIMIT then Parse(LIMIT - 1, n == |u|, true)
      else Parse(if minus && v > 0 then LIMIT - v else v, n == |u|, false)
  }

  /** The first `.` of `s`, or its length. */
  function Dot(s: string): (n: nat)
    ensures n <= |s|
  {
    if s == [] || s[0] == '.' then 0 else 1 + Dot(s[1..])
  }

  /** The decimals of `s`: what follows the point. */
  function Decimals(s: string): string { if Dot(s) < |s| then s[Dot(s) + 1..] else "" }

  /** The string handed to `strtoull`: the point taken out, decimals cut or filled up to `shift`. */
  function Shifted(s: string, shift: nat): string {
    var d := Decimals(s);
    s[..Dot(s)] + if |d| > shift then d[..shift] else d + Nulls(shift - |d|)
  }

  predicate RoundsUp(s: string, shift: nat) {
    var d := Decimals(s);
    |d| > shift && d[shift] >= '5'
  }

  /** The last statements of `read_decimal_unsigned_long_func`: does it succeed, and with which value. */
  function Verdict(p: Parse, up: bool, low: nat, high: nat, lenient: bool): (bool, nat) {
    var val := if up then (p.val + 1) % LIMIT else p.val;
    var fits := low <= val <= high;
    if !p.atEnd then (lenient && fits, val)
    else if p.range then (false, val)
    else (fits, val)
  }

  lemma Filled(s: string, shift: nat, start: string, count: nat)
    requires count <= |Decimals(s)| && count <= shift && start == s[..Dot(s)] + Decimals(s)[..count]
    requires count == shift || count == |Decimals(s)|
    ensures start + Nulls(shift - count) == Shifted(s, shift)
  {
    var a, d, z := s[..Dot(s)], Decimals(s), Nulls(shift - count);
    if |d| > shift {
      assert start + "" == start;
    } else {
      assert d[..count] == d && count == |d|;
      assert (a + d) + z == a + (d + z);
    }
  }

  /** The string that is built: the point moved `shift` places, and whether the rest rounds up. */
  method MovePoint(param: string, shift: nat) returns (updated: string, up: bool)
    ensures updated == Shifted(param, shift) && up == RoundsUp(param, shift)
  {
    var dot := Dot(param);
    var decimals := if dot < |param| then param[dot + 1..] else "";
    var count := |decimals|;
    up := false;
    if count > shift {
      up := decimals[shift] >= '5';
      count := shift;
    }
    updated := param[..dot] + decimals[..count];
    ghost var start := updated;
    for i := 0 to shift - count
      invariant updated == start + Nulls(i)
    {
      assert start + Nulls(i) + "0" == start + (Nulls(i) + "0");
      updated := updated + "0";
    }
    Filled(param, shift, start, count);
  }

  /** `read_decimal_unsigned_long_func`; the second result is what `*res` is set to, and is 0 if it is not set. */
  method ReadDecimal(param: string, low: nat, high: nat, shift: nat, lenient: bool) returns (ok: bool, res: nat)
    ensures if param != [] && param[0] == '-' then !ok && res == 0
      else (ok, res) == Read(param, shift, low, high, lenient)
  {
    if param != [] && param[0] == '-' {
      return false, 0;
    }
    var updated, up := MovePoint(param, shift);
    var r := Verdict(Strtoull(updated), up, low, high, lenient);
    ok, res := r.0, r.1;
  }

  // ----- What reading means

  lemma {:induction false} AllParsed(s: string)
    requires AllDigits(s)
    ensures Digits(s) == |s| && Spaces(s) == 0
  {
    if s != [] { AllParsed(s[1..]); }
  }

  lemma {:induction false} DigitsParse(s: string)
    requires AllDigits(s)
    ensures Strtoull(s) == if Value(s) < LIMIT then Parse(Value(s), true, false) else Parse(LIMIT - 1, true, true)
  {
    AllParsed(s);
    assert s[0..] == s && s[..|s|] == s;
  }

  /** White space as `isspace` has it in the C locale. */
  predicate White(s: string) { forall i :: 0 <= i < |s| ==> s[i] as int in {9, 10, 11, 12, 13, 32} }

  lemma {:induction false} SpacesSkipped(sp: string, t: string)
    requires White(sp) && (t != [] ==> t[0] as int !in {9, 10, 11, 12, 13, 32})
    ensures Spaces(sp + t) == |sp| && (sp + t)[|sp|..] == t
  {
    if sp == [] {
      assert sp + t == t;
    } else {
      assert (sp + t)[1..] == sp[1..] + t;
      SpacesSkipped(sp[1..], t);
    }
  }

  lemma {:induction false} DigitsTaken(d: string, rest: string)
    requires AllDigits(d) && (rest != [] ==> CharDigit(rest[0]) >= 10)
    ensures Digits(d + rest) == |d| && (d + rest)[..|d|] == d
  {
    if d == [] {
      assert d + rest == rest;
    } else {
      assert (d + rest)[1..] == d[1..] + rest;
      DigitsTaken(d[1..], rest);
    }
  }

  lemma SignTaken(sign: string, u: string)
    requires (sign == [] || sign == ['+'] || sign == ['-']) && u != [] && CharDigit(u[0]) < 10
    ensures var t := sign + u;
      && t[0] as int !in {9, 10, 11, 12, 13, 32} && (t[0] == '-' <==> sign == ['-']) && (t[0] == '+' <==> sign == ['+'])
      && u == if t[0] == '-' || t[0] == '+' then t[1..] else t
  {
    if sign == [] { assert sign + u == u; }
  }

  /** White space, an optional sign, digits, and where the number ends; too large a number is an error. */
  lemma {:induction false} StrtoullExact(sp: string, sign: string, d: string, rest: string)
    requires White(sp) && (sign == [] || sign == ['+'] || sign == ['-'])
    requires d != [] && AllDigits(d) && (rest != [] ==> CharDigit(rest[0]) >= 10)
    ensures var v, end := Value(d), rest == [];
      Strtoull(sp + (sign + (d + rest))) ==
        if v >= LIMIT then Parse(LIMIT - 1, end, true)
        else if sign == ['-'] && v > 0 then Parse(LIMIT - v, end, false)
        else Parse(v, end, false)
  {
    var u := d + rest;
    assert u[0] == d[0];
    SignTaken(sign, u);
    SpacesSkipped(sp, sign + u);
    DigitsTaken(d, rest);
  }

  /** Without digits there is no number, and the text has not been used. */
  lemma {:induction false} StrtoullNothing(sp: string, rest: string)
    requires White(sp) && (rest != [] ==> rest[0] as int !in {9, 10, 11, 12, 13, 32})
    requires rest != [] ==> CharDigit(rest[0]) >= 10 && rest[0] != '-' && rest[0] != '+'
    ensures Strtoull(sp + rest) == Parse(0, sp + rest == [], false)
  {
    SpacesSkipped(sp, rest);
  }

  /** Text after the number is an error unless the caller is lenient; the number is then not scaled. */
  lemma {:induction false} JunkExact(a: string, rest: string, shift: nat, low: nat, high: nat, lenient: bool)
    requires a != [] && AllDigits(a) && rest != [] && CharDigit(rest[0]) >= 10 && '.' !in rest
    ensures var v := if Value(a) < LIMIT then Value(a) else LIMIT - 1;
      Read(a + rest, shift, low, high, lenient) == (lenient && low <= v <= high, v)
  {
    NoDotIn(a + rest);
    var z := Nulls(shift);
    assert (a + rest)[..|a + rest|] == a + rest && (a + rest) + ("" + z) == "" + ("" + (a + (rest + z)));
    assert (rest + z)[0] == rest[0];
    StrtoullExact("", "", a, rest + z);
  }

  lemma {:induction false} NoDotIn(s: string)
    requires '.' !in s
    ensures Dot(s) == |s| && Decimals(s) == ""
  {
    if s != [] {
      assert s[0] in s && forall c :: c in s[1..] ==> c in s;
      NoDotIn(s[1..]);
    }
  }

  lemma {:induction false} DotAt(a: string, b: string)
    requires AllDigits(a)
    ensures Dot(a + "." + b) == |a| && Decimals(a + "." + b) == b
  {
    if a != [] {
      assert (a + "." + b)[1..] == a[1..] + "." + b;
      DotAt(a[1..], b);
    }
    assert (a + "." + b)[|a| + 1..] == b;
  }

  /** The fraction `n` over ten to the `k`, times ten to the `shift`, rounded half up. */
  function Rounded(n: nat, k: nat, shift: nat): nat {
    if k <= shift then n * Pow10(shift - k) else Quotient(2 * n + Pow10(k - shift), 2 * Pow10(k - shift))
  }

  /** The same, cut off instead. */
  function Cut(n: nat, k: nat, shift: nat): nat {
    if k <= shift then n * Pow10(shift - k) else Quotient(n, Pow10(k - shift))
  }

  lemma HalfUp(n: nat, a: nat, b: nat, p: nat)
    requires p > 0 && n == a * p + b && b < p
    ensures Quotient(n, p) == a && Quotient(2 * n + p, 2 * p) == if 2 * b >= p then a + 1 else a
  {
    QuotientIs(n, p, a, b);
    assert 2 * n + p == a * (2 * p) + (2 * b + p);
    if 2 * b >= p {
      assert 2 * n + p == (a + 1) * (2 * p) + (2 * b - p);
      QuotientIs(2 * n + p, 2 * p, a + 1, 2 * b - p);
    } else {
      QuotientIs(2 * n + p, 2 * p, a, 2 * b + p);
    }
  }

  lemma Half(d: nat, q: nat, r: nat)
    requires r < q
    ensures d >= 5 <==> 2 * (d * q + r) >= 10 * q
  {
    if d >= 5 { assert d * q >= 5 * q; } else { assert d * q <= 4 * q; }
  }

  /** The first of the digits cut off decides. */
  lemma {:induction false} FirstDigit(s: string)
    requires AllDigits(s) && s != []
    ensures s[0] >= '5' <==> 2 * Value(s) >= Pow10(|s|)
  {
    var rest := s[1..];
    assert s == [s[0]] + rest && [s[0]][..0] == [];
    ValueConcat([s[0]], rest);
    ValueBound(rest);
    Half(CharDigit(s[0]), Pow10(|rest|), Value(rest));
  }

  lemma {:induction false} FewDecimals(a: string, b: string, shift: nat)
    requires AllDigits(a) && AllDigits(b) && |b| <= shift
    ensures var s := a + (b + Nulls(shift - |b|));
      AllDigits(a + b) && AllDigits(s) && Value(s) == Cut(Value(a + b), |b|, shift)
  {
    Zeros(shift - |b|);
    assert a + (b + Nulls(shift - |b|)) == a + b + Nulls(shift - |b|);
    ValueConcat(a + b, Nulls(shift - |b|));
  }

  lemma SplitDigits(a: string, b: string, n: nat)
    requires AllDigits(a) && AllDigits(b) && n < |b|
    ensures AllDigits(a + b[..n]) && AllDigits(b[n..]) && a + b == (a + b[..n]) + b[n..] && b[n..][0] == b[n]
  {}

  /** Digits cut off, and what the first of them decides. */
  lemma {:induction false} CutOff(s: string, rest: string)
    requires AllDigits(s) && AllDigits(rest) && rest != []
    ensures var p := Pow10(|rest|);
      && AllDigits(s + rest) && Quotient(Value(s + rest), p) == Value(s)
      && Quotient(2 * Value(s + rest) + p, 2 * p) == Value(s) + if rest[0] >= '5' then 1 else 0
  {
    ValueConcat(s, rest);
    ValueBound(rest);
    FirstDigit(rest);
    HalfUp(Value(s + rest), Value(s), Value(rest), Pow10(|rest|));
  }

  lemma {:induction false} ManyDecimals(a: string, b: string, shift: nat)
    requires AllDigits(a) && AllDigits(b) && |b| > shift
    ensures var s := a + b[..shift];
      && AllDigits(a + b) && AllDigits(s) && Value(s) == Cut(Value(a + b), |b|, shift)
      && Rounded(Value(a + b), |b|, shift) == Value(s) + if b[shift] >= '5' then 1 else 0
  {
    SplitDigits(a, b, shift);
    CutOff(a + b[..shift], b[shift..]);
  }

  lemma {:induction false} ShiftedValue(a: string, b: string, shift: nat)
    requires AllDigits(a) && AllDigits(b)
    ensures AllDigits(a + b)
    ensures var s, n := Shifted(a + "." + b, shift), Value(a + b);
      && AllDigits(s) && Value(s) == Cut(n, |b|, shift)
      && Rounded(n, |b|, shift) == Value(s) + if RoundsUp(a + "." + b, shift) then 1 else 0
  {
    DotAt(a, b);
    assert (a + "." + b)[..|a|] == a;
    if |b| <= shift { FewDecimals(a, b, shift); } else { ManyDecimals(a, b, shift); }
  }

  /** A number without a point is read like one with a point at its end. */
  lemma {:induction false} NoPoint(a: string, shift: nat)
    requires AllDigits(a)
    ensures Shifted(a, shift) == Shifted(a + "." + "", shift) && RoundsUp(a, shift) == RoundsUp(a + "." + "", shift)
  {
    DotAt(a, "");
    NoDot(a);
    assert (a + "." + "")[..|a|] == a && a[..|a|] == a;
  }

  lemma {:induction false} NoDot(a: string)
    requires AllDigits(a)
    ensures Dot(a) == |a|
  {
    if a != [] { NoDot(a[1..]); }
  }

  /** What the reader makes of a decimal fraction. */
  ghost function Read(s: string, shift: nat, low: nat, high: nat, lenient: bool): (bool, nat) {
    Verdict(Strtoull(Shifted(s, shift)), RoundsUp(s, shift), low, high, lenient)
  }

  lemma VerdictIs(cut: nat, up: bool, low: nat, high: nat, lenient: bool)
    ensures var p := if cut < LIMIT then Parse(cut, true, false) else Parse(LIMIT - 1, true, true);
      var v, r := cut + (if up then 1 else 0), Verdict(p, up, low, high, lenient);
      if v < LIMIT then r == (low <= v <= high, v) else r.0 <==> cut == LIMIT - 1 && low == 0
  {}

  /**
   Reading rounds half up, and what cannot be represented is refused, but for one case: a value that
   is cut to the largest number and then rounded up is read as zero.
   */
  lemma {:induction false} ReadRounds(a: string, b: string, shift: nat, low: nat, high: nat, lenient: bool)
    requires AllDigits(a) && AllDigits(b)
    ensures AllDigits(a + b)
    ensures var v, r := Rounded(Value(a + b), |b|, shift), Read(a + "." + b, shift, low, high, lenient);
      if v < LIMIT then r == (low <= v <= high, v)
      else r.0 <==> Cut(Value(a + b), |b|, shift) == LIMIT - 1 && low == 0
  {
    ShiftedValue(a, b, shift);
    var s := Shifted(a + "." + b, shift);
    DigitsParse(s);
    VerdictIs(Value(s), RoundsUp(a + "." + b, shift), low, high, lenient);
  }

  lemma {:induction false} FormatParts(v: nat, dp: nat)
    ensures var a, b := Print(Quotient(v, Pow10(dp))), Padded(Remainder(v, Pow10(dp)), dp);
      AllDigits(a) && AllDigits(b) && |b| == dp && a != [] && Value(a) * Pow10(dp) + Value(b) == v
  {
    DivMod(v, Pow10(dp));
    PrintValue(Quotient(v, Pow10(dp)));
    PaddedValue(Remainder(v, Pow10(dp)), dp);
  }

  lemma NoShift(v: nat, k: nat)
    ensures Rounded(v, k, k) == v
  {}

  lemma {:induction false} ReadParts(a: string, b: string, v: nat, low: nat, high: nat, lenient: bool)
    requires AllDigits(a) && AllDigits(b) && a != [] && Value(a) * Pow10(|b|) + Value(b) == v && low <= v <= high
      && v < LIMIT
    ensures (a + "." + b)[0] != '-' && Read(a + "." + b, |b|, low, high, lenient) == (true, v)
  {
    assert AllDigits(a + b) by { ValueConcat(a, b); }
    assert Value(a + b) == v by { ValueConcat(a, b); }
    NoShift(v, |b|);
    ReadRounds(a, b, |b|, low, high, lenient);
    assert CharDigit(a[0]) < 10 && (a + "." + b)[0] == a[0];
  }

  /** Reading what `format_decimal` prints gives back the number. */
  lemma {:induction false} RoundTrip(v: nat, dp: nat, low: nat, high: nat, lenient: bool)
    requires v < LIMIT && low <= v <= high
    ensures Format(v, dp)[0] != '-' && Read(Format(v, dp), dp, low, high, lenient) == (true, v)
  {
    FormatParts(v, dp);
    ReadParts(Print(Quotient(v, Pow10(dp))), Padded(Remainder(v, Pow10(dp)), dp), v, low, high, lenient);
  }

  /** The one case: the largest number and a half. */
  lemma {:induction false} RoundedToZero(a: string)
    requires AllDigits(a) && Value(a) == LIMIT - 1
    ensures Read(a + "." + "5", 0, 0, LIMIT - 1, false) == (true, 0)
  {
    var s := a + "." + "5";
    assert Shifted(s, 0) == a && RoundsUp(s, 0) by {
      DotAt(a, "5");
      assert s[..|a|] == a && "5"[..0] == "" && a + "" == a;
    }
    DigitsParse(a);
  }
}
