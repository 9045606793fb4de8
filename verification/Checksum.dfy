/**
 The Internet checksum of lib/utils.c and its incremental update in lib/utils.h, on a host of
 either byte order.
 */
module Checksum {
  type Byte = x: int | 0 <= x < 256
  type Word = x: int | 0 <= x < 65536
  type Acc = x: int | 0 <= x < 0x1_0000_0000

  datatype Endian = Big | Little

  /** Two bytes of memory read as a `uint16_t`. */
  function WordOf(e: Endian, a: Byte, b: Byte): Word {
    if e == Big then 256 * a + b else 256 * b + a
  }

  /** The sum of the 16-bit words of a buffer, an odd last byte being padded with zero. */
  ghost function Sum(e: Endian, s: seq<Byte>): nat {
    if s == [] then 0
    else if |s| == 1 then WordOf(e, s[0], 0)
    else WordOf(e, s[0], s[1]) + Sum(e, s[2..])
  }

  /** The two folds of the carries, and the complement. */
  function Answer(sum: Acc): Word {
    var a := sum / 65536 + sum % 65536;
    var b := a + a / 65536;
    65535 - b % 65536
  }

  /** Addition of `uint32_t`. */
  function Add(a: Acc, b: Word): Acc { if a + b < 0x1_0000_0000 then a + b else a + b - 0x1_0000_0000 }

  /** What `in_csum` leaves in `*acc`. */
  ghost function AccAfter(e: Endian, buf: seq<Byte>, csum: Acc): Acc { (csum + Sum(e, buf)) % 0x1_0000_0000 }

  lemma Wrapped(total: nat, acc: Acc, k: nat)
    requires acc == total - 0x1_0000_0000 * k
    ensures acc == total % 0x1_0000_0000
  {}

  /** `in_csum` */
  method InCsum(e: Endian, buf: seq<Byte>, csum: Acc) returns (answer: Word, acc: Acc)
    ensures acc == AccAfter(e, buf, csum) && answer == Answer(acc)
  {
    var rest := buf;
    ghost var k: nat := 0;
    acc := csum;
    while |rest| > 1
      invariant acc + Sum(e, rest) == csum + Sum(e, buf) - 0x1_0000_0000 * k
    {
      var w := WordOf(e, rest[0], rest[1]);
      if acc + w >= 0x1_0000_0000 { k := k + 1; }
      acc := Add(acc, w);
      rest := rest[2..];
    }
    if |rest| == 1 {
      var w := WordOf(e, rest[0], 0);
      if acc + w >= 0x1_0000_0000 { k := k + 1; }
      acc := Add(acc, w);
    }
    Wrapped(csum + Sum(e, buf), acc, k);
    answer := Answer(acc);
  }

  // ----- One's complement arithmetic

  /** The residue that folding leaves: one's complement sums are numbers modulo 65535 with two zeros. */
  function Canon(s: nat): (r: Word)
    ensures (r == 0 <==> s == 0) && r % 65535 == s % 65535
  {
    if s == 0 then 0 else (s - 1) % 65535 + 1
  }

  lemma Unique(a: nat, b: nat)
    requires a <= 65535 && b <= 65535 && a % 65535 == b % 65535 && (a == 0 <==> b == 0)
    ensures a == b
  {}

  lemma AnswerIs(sum: Acc)
    ensures Answer(sum) == 65535 - Canon(sum)
  {
    var hi, a := sum / 65536, sum / 65536 + sum % 65536;
    assert sum == 65535 * hi + a && a <= 131070;
    var r := if a <= 65535 then a else a - 65535;
    assert Answer(sum) == 65535 - r;
    assert r % 65535 == sum % 65535;
    Unique(r, Canon(sum));
  }

  /** A buffer is accepted exactly if its sum is a positive multiple of 65535. */
  lemma AcceptedIff(sum: Acc)
    ensures Answer(sum) == 0 <==> sum > 0 && sum % 65535 == 0
  {
    AnswerIs(sum);
  }

  // ----- Pieces and fields

  lemma {:induction false} SumConcat(e: Endian, a: seq<Byte>, b: seq<Byte>)
    requires |a| % 2 == 0
    ensures Sum(e, a + b) == Sum(e, a) + Sum(e, b)
  {
    if a == [] {
      assert a + b == b;
    } else {
      assert (a + b)[2..] == a[2..] + b;
      SumConcat(e, a[2..], b);
    }
  }

  /** The first `n` words of the buffer, added up by position. */
  ghost function Words(e: Endian, s: seq<Byte>, n: nat): nat
    requires 2 * n <= |s|
  {
    if n == 0 then 0 else Words(e, s, n - 1) + WordOf(e, s[2 * n - 2], s[2 * n - 1])
  }

  lemma {:induction false} SumPrefix(e: Endian, s: seq<Byte>, n: nat)
    requires 2 * n <= |s|
    ensures Sum(e, s[..2 * n]) == Words(e, s, n)
  {
    if n > 0 {
      var a, x, y := s[..2 * n - 2], s[2 * n - 2], s[2 * n - 1];
      SumPrefix(e, s, n - 1);
      SumConcat(e, a, [x, y]);
      SumPair(e, x, y);
      assert s[..2 * n] == a + [x, y];
    }
  }

  /** The words at even positions are added; an odd last byte counts as if a zero followed it. */
  lemma {:induction false} SumExact(e: Endian, s: seq<Byte>)
    ensures |s| % 2 == 0 ==> Sum(e, s) == Words(e, s, |s| / 2)
    ensures |s| % 2 == 1 ==> Sum(e, s) == Sum(e, s + [0]) == Words(e, s, |s| / 2) + WordOf(e, s[|s| - 1], 0)
  {
    var n := |s| / 2;
    SumPrefix(e, s, n);
    if |s| % 2 == 0 {
      assert s[..2 * n] == s;
    } else {
      var a, x := s[..2 * n], s[2 * n];
      assert s == a + [x] && s + [0] == a + [x, 0];
      SumConcat(e, a, [x]);
      SumConcat(e, a, [x, 0]);
      SumPair(e, x, 0);
    }
  }

  lemma AnswerOf(sum: Acc, w: Word)
    requires w == Canon(sum)
    ensures Answer(sum) == 65535 - w
  {
    AnswerIs(sum);
  }

  /** The example of section 3 of RFC 1071, and a single byte on a big-endian host. */
  lemma {:induction false} Examples(s: seq<Byte>)
    requires s == [0x00, 0x01, 0xf2, 0x03, 0xf4, 0xf5, 0xf6, 0xf7]
    ensures Sum(Big, s) == 0x2ddf0 && Answer(Sum(Big, s)) == 0x220d
    ensures Sum(Big, [1]) == 0x100 && Answer(Sum(Big, [1])) == 0xfeff
    ensures Sum(Little, [1]) == 1
  {
    SumExact(Big, s);
    assert Words(Big, s, 0) == 0;
    assert Words(Big, s, 1) == 0x0001;
    assert Words(Big, s, 2) == 0xf204;
    assert Words(Big, s, 3) == 0x1e6f9;
    assert Words(Big, s, 4) == 0x2ddf0;
    AnswerOf(0x2ddf0, 0xddf2);
    AnswerOf(0x100, 0x100);
  }

  /** Checksumming in even pieces through `acc` is checksumming the whole, even if the accumulator wraps. */
  lemma {:induction false} PiecesAreWhole(e: Endian, a: seq<Byte>, b: seq<Byte>, csum: Acc)
    requires |a| % 2 == 0
    ensures AccAfter(e, b, AccAfter(e, a, csum)) == AccAfter(e, a + b, csum)
  {
    SumConcat(e, a, b);
    WrapTwice(csum + Sum(e, a), Sum(e, b));
  }

  lemma WrapTwice(x: nat, y: nat)
    ensures (x % 0x1_0000_0000 + y) % 0x1_0000_0000 == (x + y) % 0x1_0000_0000
  {
    var r := x % 0x1_0000_0000 + y;
    var k := x / 0x1_0000_0000 + r / 0x1_0000_0000;
    Wrapped(x + y, r % 0x1_0000_0000, k);
  }

  /** A field of even length replaced. */
  lemma SumField(e: Endian, pre: seq<Byte>, field: seq<Byte>, post: seq<Byte>)
    requires |pre| % 2 == 0 && |field| % 2 == 0
    ensures Sum(e, pre + field + post) == Sum(e, pre) + Sum(e, field) + Sum(e, post)
  {
    SumConcat(e, pre + field, post);
    SumConcat(e, pre, field);
  }

  lemma OwnSum(s: Acc, w: Word)
    requires w == Answer(s) && s + w < 0x1_0000_0000
    ensures Answer(s + w) == 0
  {
    AnswerIs(s);
    var c: int := Canon(s);
    Shift(0, s + w, s / 65535 - c / 65535 + 1);
    AcceptedIff(s + w);
  }

  lemma SumPair(e: Endian, x: Byte, y: Byte)
    ensures Sum(e, [x, y]) == WordOf(e, x, y)
  {
    assert [x, y][2..] == [];
  }

  /** A buffer that holds its own checksum in a field that was zero checksums to zero. */
  lemma {:induction false} HoldsOwnChecksum(e: Endian, pre: seq<Byte>, x: Byte, y: Byte, post: seq<Byte>, csum: Acc)
    requires |pre| % 2 == 0 && csum + Sum(e, pre + [x, y] + post) < 0x1_0000_0000
    requires csum + Sum(e, pre + [0, 0] + post) < 0x1_0000_0000
    requires WordOf(e, x, y) == Answer(csum + Sum(e, pre + [0, 0] + post))
    ensures Answer(csum + Sum(e, pre + [x, y] + post)) == 0
  {
    var s := csum + Sum(e, pre + [0, 0] + post);
    assert csum + Sum(e, pre + [x, y] + post) == s + WordOf(e, x, y) by {
      SumField(e, pre, [0, 0], post);
      SumField(e, pre, [x, y], post);
      SumPair(e, 0, 0);
      SumPair(e, x, y);
    }
    OwnSum(s, WordOf(e, x, y));
  }

  // ----- Incremental update

  /** `csum_incremental_update16` */
  function Update16(csum: Word, was: Word, now: Word): Word {
    if was == now then csum else Answer((65535 - csum) + (65535 - was) + now)
  }

  /** `csum_incremental_update32`; the halves of the old and the new value. */
  function Update32(csum: Word, wasHi: Word, wasLo: Word, nowHi: Word, nowLo: Word): Word {
    if wasHi == nowHi && wasLo == nowLo then csum
    else Answer((65535 - csum) + (65535 - wasHi) + (65535 - wasLo) + nowHi + nowLo)
  }

  /** The heart of both: words of sum `was` in a total of `s` become words of sum `now`. */
  lemma UpdateSum(s: nat, was: nat, now: nat, pad: nat)
    requires pad == 65535 || pad == 131070
    requires was <= s < 0x1_0000_0000 && s - was + now < 0x1_0000_0000 && was <= pad && now <= pad
    ensures Answer((65535 - Answer(s)) + pad - was + now) == Answer(s - was + now) <==> s - was + now != 0
  {
    AnswerIs(s);
    AnswerIs(s - was + now);
    var acc := (65535 - Answer(s)) + pad - was + now;
    AnswerIs(acc);
    assert acc == Canon(s) + pad - was + now && acc > 0;
    Congruent(Canon(s), s, pad, was, now);
    if s - was + now != 0 { Unique(Canon(acc), Canon(s - was + now)); }
  }

  lemma Congruent(r: nat, s: nat, pad: nat, was: nat, now: nat)
    requires r % 65535 == s % 65535 && pad % 65535 == 0 && was <= s && was <= pad
    ensures (r + pad - was + now) % 65535 == (s - was + now) % 65535
  {
    assert r == 65535 * (r / 65535) + r % 65535 && s == 65535 * (s / 65535) + s % 65535 && pad == 65535 * (pad / 65535);
    var k := r / 65535 - s / 65535 + pad / 65535;
    Shift(s - was + now, r + pad - was + now, k);
  }

  lemma Shift(a: int, b: int, k: int)
    requires b == a + 65535 * k
    ensures b % 65535 == a % 65535
  {}

  /** A field replaced changes the sum by the difference of the fields. */
  lemma ReplaceField(e: Endian, pre: seq<Byte>, was: seq<Byte>, now: seq<Byte>, post: seq<Byte>)
    requires |pre| % 2 == 0 && |was| % 2 == 0 && |now| % 2 == 0
    ensures Sum(e, was) <= Sum(e, pre + was + post)
    ensures Sum(e, pre + now + post) == Sum(e, pre + was + post) - Sum(e, was) + Sum(e, now)
  {
    SumField(e, pre, was, post);
    SumField(e, pre, now, post);
  }

  /** A 16-bit update gives the new checksum, unless the new buffer sums to nothing: then the two zeros differ. */
  lemma {:induction false} Incremental16(e: Endian, pre: seq<Byte>, a: Byte, b: Byte, a': Byte, b': Byte,
                                         post: seq<Byte>, csum: Acc)
    requires |pre| % 2 == 0
    requires csum + Sum(e, pre + [a, b] + post) < 0x1_0000_0000 && csum + Sum(e, pre + [a', b'] + post) < 0x1_0000_0000
    ensures var s, s' := csum + Sum(e, pre + [a, b] + post), csum + Sum(e, pre + [a', b'] + post);
      Update16(Answer(s), WordOf(e, a, b), WordOf(e, a', b')) == Answer(s') <==> (a == a' && b == b') || s' != 0
  {
    var s, s' := csum + Sum(e, pre + [a, b] + post), csum + Sum(e, pre + [a', b'] + post);
    var w: nat, w': nat := WordOf(e, a, b), WordOf(e, a', b');
    assert w <= s && s' == s - w + w' by {
      ReplaceField(e, pre, [a, b], [a', b'], post);
      SumPair(e, a, b);
      SumPair(e, a', b');
    }
    SamePair(e, a, b, a', b');
    Update16Is(s, s', w, w');
  }

  lemma Update16Is(s: Acc, s': Acc, w: Word, w': Word)
    requires w <= s && s' == s - w + w'
    ensures Update16(Answer(s), w, w') == Answer(s') <==> w == w' || s' != 0
  {
    UpdateSum(s, w, w', 65535);
  }

  lemma Update32Is(s: Acc, s': Acc, hi: Word, lo: Word, hi': Word, lo': Word)
    requires hi + lo <= s && s' == s - (hi + lo) + (hi' + lo')
    ensures Update32(Answer(s), hi, lo, hi', lo') == Answer(s') <==> (hi == hi' && lo == lo') || s' != 0
  {
    UpdateSum(s, hi + lo, hi' + lo', 131070);
  }

  lemma SamePair(e: Endian, a: Byte, b: Byte, a': Byte, b': Byte)
    ensures WordOf(e, a, b) == WordOf(e, a', b') <==> a == a' && b == b'
  {}

  lemma SumFour(e: Endian, f: seq<Byte>)
    requires |f| == 4
    ensures Sum(e, f) == WordOf(e, f[0], f[1]) + WordOf(e, f[2], f[3])
  {
    assert f[2..] == [f[2], f[3]];
    SumPair(e, f[2], f[3]);
  }

  /** The same for a 32-bit field. */
  lemma {:induction false} Incremental32(e: Endian, pre: seq<Byte>, f: seq<Byte>, f': seq<Byte>, post: seq<Byte>,
                                         csum: Acc)
    requires |pre| % 2 == 0 && |f| == 4 && |f'| == 4
    requires csum + Sum(e, pre + f + post) < 0x1_0000_0000 && csum + Sum(e, pre + f' + post) < 0x1_0000_0000
    ensures var s, s' := csum + Sum(e, pre + f + post), csum + Sum(e, pre + f' + post);
      var r := Update32(Answer(s), WordOf(e, f[0], f[1]), WordOf(e, f[2], f[3]), WordOf(e, f'[0], f'[1]),
        WordOf(e, f'[2], f'[3]));
      r == Answer(s') <==> f == f' || s' != 0
  {
    var s, s' := csum + Sum(e, pre + f + post), csum + Sum(e, pre + f' + post);
    var hi: nat, lo: nat := WordOf(e, f[0], f[1]), WordOf(e, f[2], f[3]);
    var hi': nat, lo': nat := WordOf(e, f'[0], f'[1]), WordOf(e, f'[2], f'[3]);
    assert hi + lo <= s && s' == s - (hi + lo) + (hi' + lo') by {
      ReplaceField(e, pre, f, f', post);
      SumFour(e, f);
      SumFour(e, f');
    }
    SameFour(e, f, f');
    Update32Is(s, s', hi, lo, hi', lo');
  }

  lemma SameFour(e: Endian, f: seq<Byte>, f': seq<Byte>)
    requires |f| == 4 && |f'| == 4
    ensures f == f' <==>
      WordOf(e, f[0], f[1]) == WordOf(e, f'[0], f'[1]) && WordOf(e, f[2], f[3]) == WordOf(e, f'[2], f'[3])
  {
    assert f == [f[0], f[1], f[2], f[3]] && f' == [f'[0], f'[1], f'[2], f'[3]];
  }

  /** The exception: a word that was the only one not zero becomes zero. */
  lemma TwoZeros(e: Endian)
    ensures var s := Sum(e, [0, 1]);
      Update16(Answer(s), WordOf(e, 0, 1), WordOf(e, 0, 0)) == 0 && Answer(Sum(e, [0, 0])) == 0xffff
  {
    SumPair(e, 0, 1);
    SumPair(e, 0, 0);
    var w := WordOf(e, 0, 1);
    assert Answer(w) == 65535 - w && Answer(65535) == 0 && Answer(0) == 65535;
  }

  // ----- Byte order

  /** `ntohs` on a little-endian host */
  function Swap(w: Word): Word { 256 * (w % 256) + w / 256 }

  lemma SwapIs(w: Word)
    ensures Swap(w) % 65535 == (256 * w) % 65535 && (Swap(w) == 0 <==> w == 0)
  {
    Shift(Swap(w), 256 * (w as int), w / 256);
  }

  lemma AddCongruent(a: nat, b: nat, c: nat, d: nat)
    requires a % 65535 == b % 65535 && c % 65535 == d % 65535
    ensures (a + c) % 65535 == (b + d) % 65535
  {
    Shift(b + d, a + c, a / 65535 - b / 65535 + c / 65535 - d / 65535);
  }

  lemma SwapWord(a: Byte, b: Byte)
    ensures WordOf(Big, a, b) % 65535 == (256 * WordOf(Little, a, b)) % 65535
    ensures WordOf(Big, a, b) == 0 <==> WordOf(Little, a, b) == 0
  {
    var big: int, little: int := WordOf(Big, a, b), WordOf(Little, a, b);
    Shift(big, 256 * little, b);
  }

  lemma {:induction false} SwapSum(s: seq<Byte>)
    ensures Sum(Big, s) % 65535 == (256 * Sum(Little, s)) % 65535 && (Sum(Big, s) == 0 <==> Sum(Little, s) == 0)
  {
    if |s| == 1 {
      SwapWord(s[0], 0);
    } else if s != [] {
      var b: nat, l: nat := WordOf(Big, s[0], s[1]), WordOf(Little, s[0], s[1]);
      var b', l' := Sum(Big, s[2..]), Sum(Little, s[2..]);
      SwapWord(s[0], s[1]);
      SwapSum(s[2..]);
      AddCongruent(b, 256 * l, b', 256 * l');
      assert 256 * l + 256 * l' == 256 * (l + l');
    }
  }

  lemma SwapCanon(b: nat, l: nat)
    requires b % 65535 == (256 * l) % 65535 && (b == 0 <==> l == 0)
    ensures Canon(b) == Swap(Canon(l))
  {
    var c := Canon(l);
    SwapIs(c);
    Shift(256 * l, 256 * c, 256 * (c / 65535 - l / 65535));
    Unique(Canon(b), Swap(c));
  }

  lemma SwapNegated(w: Word)
    ensures Swap(65535 - w) == 65535 - Swap(w)
  {}

  /** Words may be read in host order: the checksum stored is the same on either host. */
  lemma {:induction false} ByteOrderIndependent(s: seq<Byte>)
    requires Sum(Big, s) < 0x1_0000_0000 && Sum(Little, s) < 0x1_0000_0000
    ensures Answer(Sum(Big, s)) == Swap(Answer(Sum(Little, s)))
  {
    AnswerIs(Sum(Big, s));
    AnswerIs(Sum(Little, s));
    SwapSum(s);
    SwapCanon(Sum(Big, s), Sum(Little, s));
    SwapNegated(Canon(Sum(Little, s)));
  }
}
