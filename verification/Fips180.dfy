/**
  The hash function SHA-256 as FIPS 180-2 defines it, and HMAC as RFC 2104 defines it.
  Nothing in this module follows an implementation: it is the reference that the
  streaming class in Sha256.dfy is proved against.
 */
module Fips180 {
  type Word = bv32
  type Octet = bv8

  const BLOCK := 64
  const TWO32 := 0x1_0000_0000

  // ----- section 3.2 and 4.1.2: operations on words -----

  function RotR(x: Word, n: nat): Word
    requires 0 < n < 32
  {
    (x >> n) | (x << (32 - n))
  }

  /** Addition modulo 2^32, the standard's + on words. */
  function Add(x: Word, y: Word): Word { x + y }
  function Add4(w: Word, x: Word, y: Word, z: Word): Word { w + x + y + z }

  function Ch(x: Word, y: Word, z: Word): Word { (x & y) ^ (!x & z) }
  function Maj(x: Word, y: Word, z: Word): Word { (x & y) ^ (x & z) ^ (y & z) }
  function BigSigma0(x: Word): Word { RotR(x, 2) ^ RotR(x, 13) ^ RotR(x, 22) }
  function BigSigma1(x: Word): Word { RotR(x, 6) ^ RotR(x, 11) ^ RotR(x, 25) }
  function SmallSigma0(x: Word): Word { RotR(x, 7) ^ RotR(x, 18) ^ (x >> 3) }
  function SmallSigma1(x: Word): Word { RotR(x, 17) ^ RotR(x, 19) ^ (x >> 10) }

  // ----- section 4.2.2 and 5.3.2: constants -----

  const K_ROWS: seq<seq<Word>> := [
    [0x428a2f98, 0x71374491, 0xb5c0fbcf, 0xe9b5dba5, 0x3956c25b, 0x59f111f1, 0x923f82a4, 0xab1c5ed5],
    [0xd807aa98, 0x12835b01, 0x243185be, 0x550c7dc3, 0x72be5d74, 0x80deb1fe, 0x9bdc06a7, 0xc19bf174],
    [0xe49b69c1, 0xefbe4786, 0x0fc19dc6, 0x240ca1cc, 0x2de92c6f, 0x4a7484aa, 0x5cb0a9dc, 0x76f988da],
    [0x983e5152, 0xa831c66d, 0xb00327c8, 0xbf597fc7, 0xc6e00bf3, 0xd5a79147, 0x06ca6351, 0x14292967],
    [0x27b70a85, 0x2e1b2138, 0x4d2c6dfc, 0x53380d13, 0x650a7354, 0x766a0abb, 0x81c2c92e, 0x92722c85],
    [0xa2bfe8a1, 0xa81a664b, 0xc24b8b70, 0xc76c51a3, 0xd192e819, 0xd6990624, 0xf40e3585, 0x106aa070],
    [0x19a4c116, 0x1e376c08, 0x2748774c, 0x34b0bcb5, 0x391c0cb3, 0x4ed8aa4a, 0x5b9cca4f, 0x682e6ff3],
    [0x748f82ee, 0x78a5636f, 0x84c87814, 0x8cc70208, 0x90befffa, 0xa4506ceb, 0xbef9a3f7, 0xc67178f2]
  ]

  function K(t: nat): Word
    requires t < 64
  {
    K_ROWS[t / 8][t % 8]
  }

  const H0: seq<Word> := [
    0x6a09e667, 0xbb67ae85, 0x3c6ef372, 0xa54ff53a, 0x510e527f, 0x9b05688c, 0x1f83d9ab, 0x5be0cd19
  ]

  // ----- section 6.2.2: the message schedule and the compression function -----

  /** W(t) from W(t-2), W(t-7), W(t-15) and W(t-16). */
  function NextWord(w2: Word, w7: Word, w15: Word, w16: Word): Word
  {
    Add4(SmallSigma1(w2), w7, SmallSigma0(w15), w16)
  }

  function Schedule(block: seq<Word>, t: nat): Word
    requires |block| == 16
  {
    if t < 16 then block[t]
    else NextWord(Schedule(block, t - 2), Schedule(block, t - 7), Schedule(block, t - 15), Schedule(block, t - 16))
  }

  datatype Regs = Regs(a: Word, b: Word, c: Word, d: Word, e: Word, f: Word, g: Word, h: Word)

  function Round(r: Regs, k: Word, w: Word): Regs
  {
    var t1 := Add(Add(Add(Add(r.h, BigSigma1(r.e)), Ch(r.e, r.f, r.g)), k), w);
    var t2 := Add(BigSigma0(r.a), Maj(r.a, r.b, r.c));
    Regs(Add(t1, t2), r.a, r.b, r.c, Add(r.d, t1), r.e, r.f, r.g)
  }

  function Rounds(r: Regs, block: seq<Word>, n: nat): Regs
    requires |block| == 16 && n <= 64
  {
    if n == 0 then r else Round(Rounds(r, block, n - 1), K(n - 1), Schedule(block, n - 1))
  }

  function ToRegs(h: seq<Word>): Regs
    requires |h| == 8
  {
    Regs(h[0], h[1], h[2], h[3], h[4], h[5], h[6], h[7])
  }

  function FromRegs(r: Regs): (h: seq<Word>)
    ensures |h| == 8
  {
    [r.a, r.b, r.c, r.d, r.e, r.f, r.g, r.h]
  }

  function AddWords(h: seq<Word>, x: seq<Word>): (r: seq<Word>)
    requires |h| == |x| == 8
    ensures |r| == 8
  {
    seq(8, i requires 0 <= i < 8 => Add(h[i], x[i]))
  }

  function Compress(h: seq<Word>, block: seq<Word>): (r: seq<Word>)
    requires |h| == 8 && |block| == 16
    ensures |r| == 8
  {
    AddWords(h, FromRegs(Rounds(ToRegs(h), block, 64)))
  }

  // ----- section 5.2.1 and 3.1: octets to words, most significant octet first -----

  function BeWord(b0: Octet, b1: Octet, b2: Octet, b3: Octet): Word
  {
    (b0 as Word << 24) | (b1 as Word << 16) | (b2 as Word << 8) | (b3 as Word)
  }

  function WordsOf(m: seq<Octet>): (w: seq<Word>)
    requires |m| == BLOCK
    ensures |w| == 16
  {
    seq(16, i requires 0 <= i < 16 => BeWord(m[4 * i], m[4 * i + 1], m[4 * i + 2], m[4 * i + 3]))
  }

  /** The hash value H(n) after the first n blocks of m. */
  function HashBlocks(m: seq<Octet>, n: nat): (h: seq<Word>)
    requires n * BLOCK <= |m|
    ensures |h| == 8
  {
    if n == 0 then H0
    else Compress(HashBlocks(m, n - 1), WordsOf(m[(n - 1) * BLOCK..n * BLOCK]))
  }

  /** The hash value after n blocks does not depend on what follows them. */
  lemma {:induction false} HashBlocksOfPrefix(m: seq<Octet>, tail: seq<Octet>, n: nat)
    requires n * BLOCK <= |m|
    ensures HashBlocks(m + tail, n) == HashBlocks(m, n)
  {
    hide Compress, WordsOf;
    if n > 0 {
      HashBlocksOfPrefix(m, tail, n - 1);
      assert (m + tail)[(n - 1) * BLOCK..n * BLOCK] == m[(n - 1) * BLOCK..n * BLOCK];
    }
  }

  // ----- section 5.1.1: padding -----

  function Zeros(n: nat): (z: seq<Octet>)
    ensures |z| == n && forall i :: 0 <= i < n ==> z[i] == 0
  {
    seq(n, i => 0)
  }

  /** The number of zero octets between the 0x80 octet and the length. */
  function ZeroCount(n: nat): (k: nat)
    ensures k < BLOCK && (n + 1 + k) % BLOCK == 56
  {
    (119 - n % BLOCK) % BLOCK
  }

  function ToOctet(n: nat): Octet { (n % 256) as Octet }

  /** The low 64 bits of n, most significant octet first. */
  function Be64(n: nat): (s: seq<Octet>)
    ensures |s| == 8
  {
    [ToOctet(n / 0x100_0000_0000_0000), ToOctet(n / 0x1_0000_0000_0000), ToOctet(n / 0x100_0000_0000),
     ToOctet(n / 0x1_0000_0000), ToOctet(n / 0x100_0000), ToOctet(n / 0x1_0000), ToOctet(n / 0x100), ToOctet(n)]
  }

  /** m padded to whole blocks, with `octets` as the message length announced in the last eight octets. */
  function PadAs(m: seq<Octet>, octets: nat): (p: seq<Octet>)
    ensures |p| % BLOCK == 0 && |m| <= |p|
  {
    var p := m + [0x80] + Zeros(ZeroCount(|m|)) + Be64(8 * octets);
    p
  }

  function Pad(m: seq<Octet>): seq<Octet> { PadAs(m, |m|) }

  function Octet0(w: Word): Octet { (w >> 24) as Octet }
  function Octet1(w: Word): Octet { ((w >> 16) & 0xff) as Octet }
  function Octet2(w: Word): Octet { ((w >> 8) & 0xff) as Octet }
  function Octet3(w: Word): Octet { (w & 0xff) as Octet }

  /** Octet k of a word, the most significant one first. */
  function OctetOf(w: Word, k: nat): Octet
    requires k < 4
  {
    if k == 0 then Octet0(w) else if k == 1 then Octet1(w) else if k == 2 then Octet2(w) else Octet3(w)
  }

  function Octets(h: seq<Word>): (d: seq<Octet>)
    requires |h| == 8
    ensures |d| == 32
  {
    seq(32, i requires 0 <= i < 32 => OctetOf(h[i / 4], i % 4))
  }

  /** The digest of an already padded message. */
  function DigestPadded(p: seq<Octet>): (d: seq<Octet>)
    requires |p| % BLOCK == 0
    ensures |d| == 32
  {
    Octets(HashBlocks(p, |p| / BLOCK))
  }

  /** SHA-256 of m. */
  function Sha256(m: seq<Octet>): (d: seq<Octet>)
    ensures |d| == 32
  {
    DigestPadded(Pad(m))
  }

  // ----- RFC 2104, section 2 -----

  function XorEach(s: seq<Octet>, pad: Octet): (r: seq<Octet>)
    ensures |r| == |s|
  {
    seq(|s|, i requires 0 <= i < |s| => s[i] ^ pad)
  }

  function BlockKey(key: seq<Octet>): (k: seq<Octet>)
    ensures |k| == BLOCK
  {
    var short := if |key| > BLOCK then Sha256(key) else key;
    short + Zeros(BLOCK - |short|)
  }

  function Hmac(key: seq<Octet>, text: seq<Octet>): seq<Octet>
  {
    var k0 := BlockKey(key);
    Sha256(XorEach(k0, 0x5c) + Sha256(XorEach(k0, 0x36) + text))
  }

  // ----- where the constants come from (sections 4.2.2 and 5.3.2) -----

  /** The first sixty-four prime numbers. */
  const PRIME_ROWS: seq<seq<nat>> := [
    [2, 3, 5, 7, 11, 13, 17, 19],
    [23, 29, 31, 37, 41, 43, 47, 53],
    [59, 61, 67, 71, 73, 79, 83, 89],
    [97, 101, 103, 107, 109, 113, 127, 131],
    [137, 139, 149, 151, 157, 163, 167, 173],
    [179, 181, 191, 193, 197, 199, 211, 223],
    [227, 229, 233, 239, 241, 251, 257, 263],
    [269, 271, 277, 281, 283, 293, 307, 311]
  ]

  function Prime(t: nat): nat
    requires t < 64
  {
    PRIME_ROWS[t / 8][t % 8]
  }

  function FloorCbrt(p: nat): nat
    requires 0 < p < 343
  {
    if p < 8 then 1 else if p < 27 then 2 else if p < 64 then 3 else if p < 125 then 4 else if p < 216 then 5 else 6
  }

  function FloorSqrt(p: nat): nat
    requires 0 < p < 25
  {
    if p < 4 then 1 else if p < 9 then 2 else if p < 16 then 3 else 4
  }

  /** k is the first 32 bits of the fractional part of the cube root of p. */
  predicate CbrtFraction(p: nat, k: Word)
  {
    0 < p < 343
    && var x := FloorCbrt(p) * TWO32 + (k as nat);
       x * x * x <= p * TWO32 * TWO32 * TWO32 < (x + 1) * (x + 1) * (x + 1)
  }

  /** k is the first 32 bits of the fractional part of the square root of p. */
  predicate SqrtFraction(p: nat, k: Word)
  {
    0 < p < 25
    && var x := FloorSqrt(p) * TWO32 + (k as nat);
       x * x <= p * TWO32 * TWO32 < (x + 1) * (x + 1)
  }

  predicate CbrtRow(r: nat)
    requires r < 8
  {
    var p, k := PRIME_ROWS[r], K_ROWS[r];
    CbrtFraction(p[0], k[0]) && CbrtFraction(p[1], k[1]) && CbrtFraction(p[2], k[2]) && CbrtFraction(p[3], k[3])
    && CbrtFraction(p[4], k[4]) && CbrtFraction(p[5], k[5]) && CbrtFraction(p[6], k[6]) && CbrtFraction(p[7], k[7])
  }

  lemma CbrtRow0() ensures CbrtRow(0) {}
  lemma CbrtRow1() ensures CbrtRow(1) {}
  lemma CbrtRow2() ensures CbrtRow(2) {}
  lemma CbrtRow3() ensures CbrtRow(3) {}
  lemma CbrtRow4() ensures CbrtRow(4) {}
  lemma CbrtRow5() ensures CbrtRow(5) {}
  lemma CbrtRow6() ensures CbrtRow(6) {}
  lemma CbrtRow7() ensures CbrtRow(7) {}

  lemma CbrtRows(r: nat)
    requires r < 8
    ensures CbrtRow(r)
  {
    hide CbrtRow;
    CbrtRow0();
    CbrtRow1();
    CbrtRow2();
    CbrtRow3();
    CbrtRow4();
    CbrtRow5();
    CbrtRow6();
    CbrtRow7();
    if r == 0 {} else if r == 1 {} else if r == 2 {} else if r == 3 {}
    else if r == 4 {} else if r == 5 {} else if r == 6 {} else {}
  }

  /** Every word of the table is the one the standard derives. */
  lemma RoundConstants(t: nat)
    requires t < 64
    ensures CbrtFraction(Prime(t), K(t))
  {
    CbrtRows(t / 8);
    hide CbrtFraction;
    var j := t % 8;
    if j == 0 {} else if j == 1 {} else if j == 2 {} else if j == 3 {}
    else if j == 4 {} else if j == 5 {} else if j == 6 {} else {}
  }

  lemma InitialHash(i: nat)
    requires i < 8
    ensures SqrtFraction(Prime(i), H0[i])
  {
    assert SqrtFraction(2, 0x6a09e667) && SqrtFraction(3, 0xbb67ae85);
    assert SqrtFraction(5, 0x3c6ef372) && SqrtFraction(7, 0xa54ff53a);
    assert SqrtFraction(11, 0x510e527f) && SqrtFraction(13, 0x9b05688c);
    assert SqrtFraction(17, 0x1f83d9ab) && SqrtFraction(19, 0x5be0cd19);
    hide SqrtFraction;
    if i == 0 {} else if i == 1 {} else if i == 2 {} else if i == 3 {}
    else if i == 4 {} else if i == 5 {} else if i == 6 {} else {}
  }

  // ----- the primes they are made from -----

  predicate IsPrime(n: nat) { n >= 2 && forall d :: 2 <= d < n ==> n % d != 0 }

  predicate Clears(n: nat, q: nat)
    requires q > 0
  {
    n % q != 0 || n <= q
  }

  /** Trial division by the primes below 18. */
  predicate Passes(n: nat)
  {
    Clears(n, 2) && Clears(n, 3) && Clears(n, 5) && Clears(n, 7) && Clears(n, 11) && Clears(n, 13) && Clears(n, 17)
  }

  /** A divisor of a divisor divides. */
  lemma DividesThrough(n: nat, c: nat, q: nat)
    requires q > 0 && c > 0 && n % c == 0 && c % q == 0
    ensures n % q == 0
  {
    var m, k := n / c, c / q;
    assert n == c * m && c == q * k;
    assert c * m == q * (k * m);
    MultipleHasNoRemainder(q, k * m);
  }

  lemma PassesEach(n: nat, c: nat)
    requires Passes(n) && 2 <= c <= 17 && c < n
    ensures n % c != 0
  {
    var q := if c % 2 == 0 then 2 else if c % 3 == 0 then 3 else if c % 5 == 0 then 5 else c;
    assert c % q == 0 && q <= c && (q == 2 || q == 3 || q == 5 || q == 7 || q == 11 || q == 13 || q == 17);
    if n % c == 0 {
      DividesThrough(n, c, q);
    }
  }

  lemma ProductAtLeast(a: nat, b: nat, m: nat, n: nat)
    requires a >= m && b >= n
    ensures a * b >= m * n
  {
  }

  lemma MultipleHasNoRemainder(q: nat, d: nat)
    requires q > 0
    ensures (q * d) % q == 0
  {
    var m, r := q * d / q, q * d % q;
    assert q * d == q * m + r;
    if d > m {
      assert q * (d - m) == r;
      ProductAtLeast(q, d - m, q, 1);
    } else if d < m {
      assert q * (m - d) == -r;
      ProductAtLeast(q, m - d, q, 1);
    }
  }

  /** A divisor above 17 of a number below 18 * 18 has a cofactor of at most 17. */
  lemma Cofactor(n: nat, d: nat)
    requires 17 < d < n < 324 && n % d == 0
    ensures 2 <= n / d <= 17 && n % (n / d) == 0
  {
    var q := n / d;
    assert n == q * d;
    MultipleHasNoRemainder(q, d);
    if q >= 18 { ProductAtLeast(q, d, 18, 18); }
  }

  lemma PrimeIffPasses(n: nat)
    requires 2 <= n < 324
    ensures IsPrime(n) <==> Passes(n)
  {
    if Passes(n) {
      forall d | 2 <= d < n
        ensures n % d != 0
      {
        hide Passes;
        if d <= 17 {
          PassesEach(n, d);
        } else if n % d == 0 {
          Cofactor(n, d);
          PassesEach(n, n / d);
        }
      }
    }
  }

  /** The first number from n on that passes is p. */
  predicate NextIs(n: nat, p: nat)
    decreases p - n
  {
    if n >= p then n == p && Passes(p) else !Passes(n) && NextIs(n + 1, p)
  }

  lemma {:induction false} NextIsPrime(n: nat, p: nat)
    requires 2 <= n <= p < 324 && NextIs(n, p)
    ensures IsPrime(p) && forall c :: n <= c < p ==> !IsPrime(c)
    decreases p - n
  {
    hide IsPrime, Passes;
    PrimeIffPasses(n);
    if n < p { NextIsPrime(n + 1, p); }
  }

  predicate PrimeRow(r: nat)
    requires r < 8
  {
    var p := PRIME_ROWS[r];
    NextIs(if r == 0 then 2 else PRIME_ROWS[r - 1][7] + 1, p[0])
    && NextIs(p[0] + 1, p[1]) && NextIs(p[1] + 1, p[2]) && NextIs(p[2] + 1, p[3]) && NextIs(p[3] + 1, p[4])
    && NextIs(p[4] + 1, p[5]) && NextIs(p[5] + 1, p[6]) && NextIs(p[6] + 1, p[7])
  }

  lemma PrimeGaps0a() ensures NextIs(2, 2) && NextIs(3, 3) && NextIs(4, 5) && NextIs(6, 7) {}
  lemma PrimeGaps0b() ensures NextIs(8, 11) && NextIs(12, 13) && NextIs(14, 17) && NextIs(18, 19) {}
  lemma PrimeGaps1a() ensures NextIs(20, 23) && NextIs(24, 29) && NextIs(30, 31) && NextIs(32, 37) {}
  lemma PrimeGaps1b() ensures NextIs(38, 41) && NextIs(42, 43) && NextIs(44, 47) && NextIs(48, 53) {}
  lemma PrimeGaps2a() ensures NextIs(54, 59) && NextIs(60, 61) && NextIs(62, 67) && NextIs(68, 71) {}
  lemma PrimeGaps2b() ensures NextIs(72, 73) && NextIs(74, 79) && NextIs(80, 83) && NextIs(84, 89) {}
  lemma PrimeGaps3a() ensures NextIs(90, 97) && NextIs(98, 101) && NextIs(102, 103) && NextIs(104, 107) {}
  lemma PrimeGaps3b() ensures NextIs(108, 109) && NextIs(110, 113) && NextIs(114, 127) && NextIs(128, 131) {}
  lemma PrimeGaps4a() ensures NextIs(132, 137) && NextIs(138, 139) && NextIs(140, 149) && NextIs(150, 151) {}
  lemma PrimeGaps4b() ensures NextIs(152, 157) && NextIs(158, 163) && NextIs(164, 167) && NextIs(168, 173) {}
  lemma PrimeGaps5a() ensures NextIs(174, 179) && NextIs(180, 181) && NextIs(182, 191) && NextIs(192, 193) {}
  lemma PrimeGaps5b() ensures NextIs(194, 197) && NextIs(198, 199) && NextIs(200, 211) && NextIs(212, 223) {}
  lemma PrimeGaps6a() ensures NextIs(224, 227) && NextIs(228, 229) && NextIs(230, 233) && NextIs(234, 239) {}
  lemma PrimeGaps6b() ensures NextIs(240, 241) && NextIs(242, 251) && NextIs(252, 257) && NextIs(258, 263) {}
  lemma PrimeGaps7a() ensures NextIs(264, 269) && NextIs(270, 271) && NextIs(272, 277) && NextIs(278, 281) {}
  lemma PrimeGaps7b() ensures NextIs(282, 283) && NextIs(284, 293) && NextIs(294, 307) && NextIs(308, 311) {}

  lemma PrimeRows(r: nat)
    requires r < 8
    ensures PrimeRow(r)
  {
    hide NextIs;
    if r == 0 { PrimeGaps0a(); PrimeGaps0b(); }
    else if r == 1 { PrimeGaps1a(); PrimeGaps1b(); }
    else if r == 2 { PrimeGaps2a(); PrimeGaps2b(); }
    else if r == 3 { PrimeGaps3a(); PrimeGaps3b(); }
    else if r == 4 { PrimeGaps4a(); PrimeGaps4b(); }
    else if r == 5 { PrimeGaps5a(); PrimeGaps5b(); }
    else if r == 6 { PrimeGaps6a(); PrimeGaps6b(); }
    else { PrimeGaps7a(); PrimeGaps7b(); }
  }

  /** The table holds the first sixty-four primes: 2, and after each entry the next prime. */
  lemma FirstPrimes(t: nat)
    requires t < 64
    ensures var from := if t == 0 then 2 else Prime(t - 1) + 1;
      from <= Prime(t) && IsPrime(Prime(t)) && forall c :: from <= c < Prime(t) ==> !IsPrime(c)
  {
    var from := if t == 0 then 2 else Prime(t - 1) + 1;
    NextInTable(t);
    hide IsPrime, NextIs, Prime;
    NextIsPrime(from, Prime(t));
  }

  lemma NextInTable(t: nat)
    requires t < 64
    ensures var from := if t == 0 then 2 else Prime(t - 1) + 1;
      2 <= from <= Prime(t) < 324 && NextIs(from, Prime(t))
  {
    var r, j := t / 8, t % 8;
    assert t > 0 ==> (t - 1) / 8 == (if j == 0 then r - 1 else r) && (t - 1) % 8 == (if j == 0 then 7 else j - 1);
    NextInRow(r, j);
    RowIsSmall(r);
    if r > 0 { RowIsSmall(r - 1); }
    NextIsAhead(if t == 0 then 2 else Prime(t - 1) + 1, Prime(t));
    hide NextIs;
  }

  lemma NextInRow(r: nat, j: nat)
    requires r < 8 && j < 8
    ensures var from := if j > 0 then PRIME_ROWS[r][j - 1] + 1 else if r > 0 then PRIME_ROWS[r - 1][7] + 1 else 2;
      NextIs(from, PRIME_ROWS[r][j])
  {
    PrimeRows(r);
    hide NextIs;
    if j == 0 {} else if j == 1 {} else if j == 2 {} else if j == 3 {}
    else if j == 4 {} else if j == 5 {} else if j == 6 {} else {}
  }

  lemma NextIsAhead(n: nat, p: nat)
    requires NextIs(n, p)
    ensures n <= p
  {
  }

  lemma RowIsSmall(r: nat)
    requires r < 8
    ensures forall j :: 0 <= j < 8 ==> 2 <= PRIME_ROWS[r][j] < 324
  {
    if r == 0 {} else if r == 1 {} else if r == 2 {} else if r == 3 {}
    else if r == 4 {} else if r == 5 {} else if r == 6 {} else {}
  }
}
