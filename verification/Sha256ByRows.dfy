/**
  SHA-256 computed eight rounds at a time, on literal words. The general lemmas say how the tables of one block, each
  following from the one before, prove its hash value; Sha256Examples.dfy has a module of such tables for each block.
 */
module Sha256ByRows {
  import opened Fips180
  import opened Cryptosuite

  /** Eight words of the message schedule, or of a block. */
  datatype Row = Row(w0: Word, w1: Word, w2: Word, w3: Word, w4: Word, w5: Word, w6: Word, w7: Word)

  // ----- the operations with their shifts written out -----

  function Xor3(x: Word, y: Word, z: Word): Word { x ^ y ^ z }

  function Sum0(x: Word): Word { Xor3((x >> 2) | (x << 30), (x >> 13) | (x << 19), (x >> 22) | (x << 10)) }
  function Sum1(x: Word): Word { Xor3((x >> 6) | (x << 26), (x >> 11) | (x << 21), (x >> 25) | (x << 7)) }
  function Sigma0(x: Word): Word { Xor3((x >> 7) | (x << 25), (x >> 18) | (x << 14), x >> 3) }
  function Sigma1(x: Word): Word { Xor3((x >> 17) | (x << 15), (x >> 19) | (x << 13), x >> 10) }

  lemma RotR2(x: Word) ensures RotR(x, 2) == (x >> 2) | (x << 30) {}
  lemma RotR6(x: Word) ensures RotR(x, 6) == (x >> 6) | (x << 26) {}
  lemma RotR7(x: Word) ensures RotR(x, 7) == (x >> 7) | (x << 25) {}
  lemma RotR11(x: Word) ensures RotR(x, 11) == (x >> 11) | (x << 21) {}
  lemma RotR13(x: Word) ensures RotR(x, 13) == (x >> 13) | (x << 19) {}
  lemma RotR17(x: Word) ensures RotR(x, 17) == (x >> 17) | (x << 15) {}
  lemma RotR18(x: Word) ensures RotR(x, 18) == (x >> 18) | (x << 14) {}
  lemma RotR19(x: Word) ensures RotR(x, 19) == (x >> 19) | (x << 13) {}
  lemma RotR22(x: Word) ensures RotR(x, 22) == (x >> 22) | (x << 10) {}
  lemma RotR25(x: Word) ensures RotR(x, 25) == (x >> 25) | (x << 7) {}

  lemma Sums(x: Word)
    ensures Sum0(x) == BigSigma0(x) && Sum1(x) == BigSigma1(x)
  {
    BigSigmasXor(x);
    RotR2(x);
    RotR13(x);
    RotR22(x);
    RotR6(x);
    RotR11(x);
    RotR25(x);
    hide Xor3, RotR, BigSigma0, BigSigma1;
  }

  lemma BigSigmasXor(x: Word)
    ensures BigSigma0(x) == Xor3(RotR(x, 2), RotR(x, 13), RotR(x, 22))
    ensures BigSigma1(x) == Xor3(RotR(x, 6), RotR(x, 11), RotR(x, 25))
  {
    hide RotR;
  }

  lemma Sigmas(x: Word)
    ensures Sigma0(x) == SmallSigma0(x) && Sigma1(x) == SmallSigma1(x)
  {
    SmallSigmasXor(x);
    RotR7(x);
    RotR18(x);
    RotR17(x);
    RotR19(x);
    hide Xor3, RotR, SmallSigma0, SmallSigma1;
  }

  lemma SmallSigmasXor(x: Word)
    ensures SmallSigma0(x) == Xor3(RotR(x, 7), RotR(x, 18), x >> 3)
    ensures SmallSigma1(x) == Xor3(RotR(x, 17), RotR(x, 19), x >> 10)
  {
    hide RotR;
  }

  function Plus5(v: Word, w: Word, x: Word, y: Word, z: Word): Word { v + w + x + y + z }

  lemma Sum2(x: Word, y: Word) ensures Add(x, y) == x + y {}

  lemma Sum3(a: Word, v: Word, w: Word, x: Word)
    requires a == v + w
    ensures Add(a, x) == v + w + x
  {
  }

  lemma Sum4(a: Word, v: Word, w: Word, x: Word, y: Word)
    requires a == v + w + x
    ensures Add(a, y) == v + w + x + y
  {
  }

  lemma Sum5(a: Word, v: Word, w: Word, x: Word, y: Word, z: Word)
    requires a == v + w + x + y
    ensures Add(a, z) == Plus5(v, w, x, y, z)
  {
  }

  lemma Plus5Is(v: Word, w: Word, x: Word, y: Word, z: Word)
    ensures Plus5(v, w, x, y, z) == Add(Add(Add(Add(v, w), x), y), z)
  {
    Sum2(v, w);
    Sum3(Add(v, w), v, w, x);
    Sum4(Add(Add(v, w), x), v, w, x, y);
    Sum5(Add(Add(Add(v, w), x), y), v, w, x, y, z);
    hide Add, Plus5;
  }

  lemma SumRight(a: Word, x: Word, y: Word, z: Word)
    requires a == y + z
    ensures Add(x, a) == x + (y + z)
  {
  }

  lemma Plus3Is(x: Word, y: Word, z: Word)
    ensures Add(x, Add(y, z)) == x + (y + z)
  {
    Sum2(y, z);
    SumRight(Add(y, z), x, y, z);
    hide Add;
  }

  /** The registers shifted by one, with the two new values. */
  function Shifted(a: Word, b: Word, c: Word, d: Word, e: Word, f: Word, g: Word, t1: Word, sum: Word, maj: Word): Regs
  {
    Regs(t1 + (sum + maj), a, b, c, d + t1, e, f, g)
  }

  lemma ShiftedIs(a: Word, b: Word, c: Word, d: Word, e: Word, f: Word, g: Word, t1: Word, sum: Word, maj: Word)
    ensures Shifted(a, b, c, d, e, f, g, t1, sum, maj) == Regs(Add(t1, Add(sum, maj)), a, b, c, Add(d, t1), e, f, g)
  {
    Plus3Is(t1, sum, maj);
    Sum2(d, t1);
    ShiftedParts(a, b, c, d, e, f, g, t1, sum, maj, Add(t1, Add(sum, maj)), Add(d, t1));
    hide Add, Shifted;
  }

  lemma ShiftedParts(a: Word, b: Word, c: Word, d: Word, e: Word, f: Word, g: Word, t1: Word, sum: Word, maj: Word,
                     x: Word, y: Word)
    requires x == t1 + (sum + maj) && y == d + t1
    ensures Shifted(a, b, c, d, e, f, g, t1, sum, maj) == Regs(x, a, b, c, y, e, f, g)
  {
  }

  function OneRound(r: Regs, k: Word, w: Word): Regs
  {
    var t1 := Plus5(r.h, Sum1(r.e), Ch(r.e, r.f, r.g), k, w);
    Shifted(r.a, r.b, r.c, r.d, r.e, r.f, r.g, t1, Sum0(r.a), Maj(r.a, r.b, r.c))
  }

  lemma OneRoundIs(r: Regs, k: Word, w: Word)
    ensures OneRound(r, k, w) == Round(r, k, w)
  {
    Sums(r.e);
    Sums(r.a);
    Plus5Is(r.h, Sum1(r.e), Ch(r.e, r.f, r.g), k, w);
    var t1 := Plus5(r.h, Sum1(r.e), Ch(r.e, r.f, r.g), k, w);
    ShiftedIs(r.a, r.b, r.c, r.d, r.e, r.f, r.g, t1, Sum0(r.a), Maj(r.a, r.b, r.c));
    hide Sum0, Sum1, BigSigma0, BigSigma1, Ch, Maj, Add, Plus5, Shifted;
  }

  function NewWord(w2: Word, w7: Word, w15: Word, w16: Word): Word
  {
    Add4(Sigma1(w2), w7, Sigma0(w15), w16)
  }

  lemma NewWordIs(w2: Word, w7: Word, w15: Word, w16: Word)
    ensures NewWord(w2, w7, w15, w16) == NextWord(w2, w7, w15, w16)
  {
    Sigmas(w2);
    Sigmas(w15);
    hide Sigma0, Sigma1, SmallSigma0, SmallSigma1, Add4;
  }

  // ----- eight at a time -----

  function EightRounds(r: Regs, k: Row, w: Row): Regs
  {
    var r4 := OneRound(OneRound(OneRound(OneRound(r, k.w0, w.w0), k.w1, w.w1), k.w2, w.w2), k.w3, w.w3);
    OneRound(OneRound(OneRound(OneRound(r4, k.w4, w.w4), k.w5, w.w5), k.w6, w.w6), k.w7, w.w7)
  }

  /** The row behind p and q in the message schedule. */
  function NextRow(p: Row, q: Row): Row
  {
    var w0 := NewWord(q.w6, q.w1, p.w1, p.w0);
    var w1 := NewWord(q.w7, q.w2, p.w2, p.w1);
    var w2 := NewWord(w0, q.w3, p.w3, p.w2);
    var w3 := NewWord(w1, q.w4, p.w4, p.w3);
    var w4 := NewWord(w2, q.w5, p.w5, p.w4);
    var w5 := NewWord(w3, q.w6, p.w6, p.w5);
    var w6 := NewWord(w4, q.w7, p.w7, p.w6);
    Row(w0, w1, w2, w3, w4, w5, w6, NewWord(w5, w0, q.w0, p.w7))
  }

  // ----- the tables of a block -----

  function KRow(j: nat): Row
    requires j < 8
  {
    Row(K(8 * j), K(8 * j + 1), K(8 * j + 2), K(8 * j + 3), K(8 * j + 4), K(8 * j + 5), K(8 * j + 6), K(8 * j + 7))
  }

  function ScheduleRow(block: seq<Word>, j: nat): Row
    requires |block| == 16
  {
    var t := 8 * j;
    Row(Schedule(block, t), Schedule(block, t + 1), Schedule(block, t + 2), Schedule(block, t + 3),
        Schedule(block, t + 4), Schedule(block, t + 5), Schedule(block, t + 6), Schedule(block, t + 7))
  }

  lemma RoundsOn(r: Regs, block: seq<Word>, n: nat)
    requires |block| == 16 && n < 64
    ensures Rounds(r, block, n + 1) == OneRound(Rounds(r, block, n), K(n), Schedule(block, n))
  {
    OneRoundIs(Rounds(r, block, n), K(n), Schedule(block, n));
    hide Round, K, Schedule;
  }

  lemma RoundsByRow(r: Regs, block: seq<Word>, j: nat)
    requires |block| == 16 && j < 8
    ensures Rounds(r, block, 8 * j + 8) == EightRounds(Rounds(r, block, 8 * j), KRow(j), ScheduleRow(block, j))
  {
    hide Rounds, OneRound, K, Schedule;
    var t := 8 * j;
    RoundsOn(r, block, t);
    RoundsOn(r, block, t + 1);
    RoundsOn(r, block, t + 2);
    RoundsOn(r, block, t + 3);
    RoundsOn(r, block, t + 4);
    RoundsOn(r, block, t + 5);
    RoundsOn(r, block, t + 6);
    RoundsOn(r, block, t + 7);
  }

  lemma ScheduleOn(block: seq<Word>, t: nat)
    requires |block| == 16 && t >= 16
    ensures Schedule(block, t)
      == NewWord(Schedule(block, t - 2), Schedule(block, t - 7), Schedule(block, t - 15), Schedule(block, t - 16))
  {
    NewWordIs(Schedule(block, t - 2), Schedule(block, t - 7), Schedule(block, t - 15), Schedule(block, t - 16));
    hide NewWord, NextWord;
  }

  lemma ScheduleByRow(block: seq<Word>, j: nat)
    requires |block| == 16 && j >= 2
    ensures ScheduleRow(block, j) == NextRow(ScheduleRow(block, j - 2), ScheduleRow(block, j - 1))
  {
    hide Schedule, NewWord;
    var t := 8 * j;
    ScheduleOn(block, t);
    ScheduleOn(block, t + 1);
    ScheduleOn(block, t + 2);
    ScheduleOn(block, t + 3);
    ScheduleOn(block, t + 4);
    ScheduleOn(block, t + 5);
    ScheduleOn(block, t + 6);
    ScheduleOn(block, t + 7);
  }

  function RowWords(p: Row): (w: seq<Word>)
    ensures |w| == 8
  {
    [p.w0, p.w1, p.w2, p.w3, p.w4, p.w5, p.w6, p.w7]
  }

  lemma FirstRows(p: Row, q: Row)
    ensures var block := RowWords(p) + RowWords(q); ScheduleRow(block, 0) == p && ScheduleRow(block, 1) == q
  {
    hide NextWord;
  }

  function AddRegs(r: Regs, x: Regs): Regs
  {
    Regs(Add(r.a, x.a), Add(r.b, x.b), Add(r.c, x.c), Add(r.d, x.d), Add(r.e, x.e), Add(r.f, x.f), Add(r.g, x.g),
         Add(r.h, x.h))
  }

  lemma AddWordsIs(r: Regs, x: Regs)
    ensures AddWords(FromRegs(r), FromRegs(x)) == FromRegs(AddRegs(r, x)) && ToRegs(FromRegs(r)) == r
  {
    hide Add;
  }

  /** Rows of the schedule, and the registers before each eight rounds, that follow from one another. */
  predicate Follow(w0: Row, w1: Row, w2: Row, w3: Row, w4: Row, w5: Row, w6: Row, w7: Row,
                   r0: Regs, r1: Regs, r2: Regs, r3: Regs, r4: Regs, r5: Regs, r6: Regs, r7: Regs, r8: Regs)
  {
    && w2 == NextRow(w0, w1) && w3 == NextRow(w1, w2) && w4 == NextRow(w2, w3)
    && w5 == NextRow(w3, w4) && w6 == NextRow(w4, w5) && w7 == NextRow(w5, w6)
    && r1 == EightRounds(r0, K0(), w0) && r2 == EightRounds(r1, K1(), w1) && r3 == EightRounds(r2, K2(), w2)
    && r4 == EightRounds(r3, K3(), w3) && r5 == EightRounds(r4, K4(), w4) && r6 == EightRounds(r5, K5(), w5)
    && r7 == EightRounds(r6, K6(), w6) && r8 == EightRounds(r7, K7(), w7)
  }

  lemma Compressed(w0: Row, w1: Row, w2: Row, w3: Row, w4: Row, w5: Row, w6: Row, w7: Row,
                   r0: Regs, r1: Regs, r2: Regs, r3: Regs, r4: Regs, r5: Regs, r6: Regs, r7: Regs, r8: Regs)
    requires Follow(w0, w1, w2, w3, w4, w5, w6, w7, r0, r1, r2, r3, r4, r5, r6, r7, r8)
    ensures Compress(FromRegs(r0), RowWords(w0) + RowWords(w1)) == FromRegs(AddRegs(r0, r8))
  {
    hide ScheduleRow, NextRow, EightRounds, KRow, Rounds, RowWords, AddRegs, AddWords,
      K0, K1, K2, K3, K4, K5, K6, K7;
    var block := RowWords(w0) + RowWords(w1);
    FirstRows(w0, w1);
    KRows();
    RoundsOfNone(r0, block);
    RoundsByRow(r0, block, 0);
    RoundsByRow(r0, block, 1);
    ScheduleByRow(block, 2);
    RoundsByRow(r0, block, 2);
    ScheduleByRow(block, 3);
    RoundsByRow(r0, block, 3);
    ScheduleByRow(block, 4);
    RoundsByRow(r0, block, 4);
    ScheduleByRow(block, 5);
    RoundsByRow(r0, block, 5);
    ScheduleByRow(block, 6);
    RoundsByRow(r0, block, 6);
    ScheduleByRow(block, 7);
    RoundsByRow(r0, block, 7);
    AddWordsIs(r0, r8);
  }

  lemma RoundsOfNone(r: Regs, block: seq<Word>)
    requires |block| == 16
    ensures Rounds(r, block, 0) == r
  {
  }

  // ----- the constants, a row at a time -----

  function K0(): Row
  {
    Row(0x428a2f98, 0x71374491, 0xb5c0fbcf, 0xe9b5dba5, 0x3956c25b, 0x59f111f1, 0x923f82a4, 0xab1c5ed5)
  }
  function K1(): Row
  {
    Row(0xd807aa98, 0x12835b01, 0x243185be, 0x550c7dc3, 0x72be5d74, 0x80deb1fe, 0x9bdc06a7, 0xc19bf174)
  }
  function K2(): Row
  {
    Row(0xe49b69c1, 0xefbe4786, 0x0fc19dc6, 0x240ca1cc, 0x2de92c6f, 0x4a7484aa, 0x5cb0a9dc, 0x76f988da)
  }
  function K3(): Row
  {
    Row(0x983e5152, 0xa831c66d, 0xb00327c8, 0xbf597fc7, 0xc6e00bf3, 0xd5a79147, 0x06ca6351, 0x14292967)
  }
  function K4(): Row
  {
    Row(0x27b70a85, 0x2e1b2138, 0x4d2c6dfc, 0x53380d13, 0x650a7354, 0x766a0abb, 0x81c2c92e, 0x92722c85)
  }
  function K5(): Row
  {
    Row(0xa2bfe8a1, 0xa81a664b, 0xc24b8b70, 0xc76c51a3, 0xd192e819, 0xd6990624, 0xf40e3585, 0x106aa070)
  }
  function K6(): Row
  {
    Row(0x19a4c116, 0x1e376c08, 0x2748774c, 0x34b0bcb5, 0x391c0cb3, 0x4ed8aa4a, 0x5b9cca4f, 0x682e6ff3)
  }
  function K7(): Row
  {
    Row(0x748f82ee, 0x78a5636f, 0x84c87814, 0x8cc70208, 0x90befffa, 0xa4506ceb, 0xbef9a3f7, 0xc67178f2)
  }

  lemma K0Is() ensures KRow(0) == K0() {}
  lemma K1Is() ensures KRow(1) == K1() {}
  lemma K2Is() ensures KRow(2) == K2() {}
  lemma K3Is() ensures KRow(3) == K3() {}
  lemma K4Is() ensures KRow(4) == K4() {}
  lemma K5Is() ensures KRow(5) == K5() {}
  lemma K6Is() ensures KRow(6) == K6() {}
  lemma K7Is() ensures KRow(7) == K7() {}

  lemma KRows()
    ensures KRow(0) == K0() && KRow(1) == K1() && KRow(2) == K2() && KRow(3) == K3()
    ensures KRow(4) == K4() && KRow(5) == K5() && KRow(6) == K6() && KRow(7) == K7()
  {
    hide KRow;
    K0Is();
    K1Is();
    K2Is();
    K3Is();
    K4Is();
    K5Is();
    K6Is();
    K7Is();
  }

  // ----- octets -----

  function Four(w: Word): (s: seq<Octet>)
    ensures |s| == 4
  {
    [Octet0(w), Octet1(w), Octet2(w), Octet3(w)]
  }

  function Fours(h: seq<Word>): seq<Octet>
  {
    if h == [] then [] else Four(h[0]) + Fours(h[1..])
  }

  lemma FourAt(w: Word, k: nat)
    requires k < 4
    ensures Four(w)[k] == OctetOf(w, k)
  {
    hide Octet0, Octet1, Octet2, Octet3;
  }

  lemma {:induction false} FoursAt(h: seq<Word>)
    ensures |Fours(h)| == 4 * |h| && forall i :: 0 <= i < 4 * |h| ==> Fours(h)[i] == OctetOf(h[i / 4], i % 4)
  {
    hide Four, OctetOf;
    if h != [] {
      FoursAt(h[1..]);
      var first, rest := Four(h[0]), Fours(h[1..]);
      assert Fours(h) == first + rest;
      hide Fours;
      forall i | 0 <= i < 4 * |h|
        ensures (first + rest)[i] == OctetOf(h[i / 4], i % 4)
      {
        if i < 4 {
          FourAt(h[0], i);
        } else {
          assert (i - 4) / 4 == i / 4 - 1 && (i - 4) % 4 == i % 4;
          assert h[1..][(i - 4) / 4] == h[i / 4];
        }
      }
    }
  }

  lemma OctetsAreFours(h: seq<Word>)
    requires |h| == 8
    ensures Octets(h) == Fours(h)
  {
    hide OctetOf, Fours;
    FoursAt(h);
  }

  lemma FourWord(w: Word)
    ensures BeWord(OctetOf(w, 0), OctetOf(w, 1), OctetOf(w, 2), OctetOf(w, 3)) == w
  {
    WordFromOctets(w);
    hide BeWord, Octet0, Octet1, Octet2, Octet3;
  }

  /** The octets of sixteen words make these words. */
  lemma WordsOfFours(h: seq<Word>)
    requires |h| == 16
    ensures |Fours(h)| == BLOCK && WordsOf(Fours(h)) == h
  {
    hide BeWord, OctetOf, Fours;
    FoursAt(h);
    forall i | 0 <= i < 16
      ensures WordsOf(Fours(h))[i] == h[i]
    {
      FourWord(h[i]);
      assert (4 * i + 1) / 4 == (4 * i + 2) / 4 == (4 * i + 3) / 4 == i;
    }
  }

  lemma {:induction false} FoursConcat(g: seq<Word>, h: seq<Word>)
    ensures Fours(g + h) == Fours(g) + Fours(h)
  {
    hide Four;
    if g == [] {
      assert g + h == h;
    } else {
      assert (g + h)[1..] == g[1..] + h;
      FoursConcat(g[1..], h);
    }
  }

  /** The octets of two rows. */
  function Block(p: Row, q: Row): (s: seq<Octet>)
    ensures |s| == BLOCK
  {
    FoursAt(RowWords(p) + RowWords(q));
    Fours(RowWords(p) + RowWords(q))
  }

  lemma BlockParts(p: Row, q: Row)
    ensures Block(p, q) == RowOctets(p) + RowOctets(q)
  {
    FoursConcat(RowWords(p), RowWords(q));
    hide Fours, RowWords;
  }

  function RowOctets(p: Row): seq<Octet> { Fours(RowWords(p)) }

  lemma RowByFour(p: Row)
    ensures RowOctets(p)
      == Four(p.w0) + Four(p.w1) + Four(p.w2) + Four(p.w3) + Four(p.w4) + Four(p.w5) + Four(p.w6) + Four(p.w7)
  {
    hide Four;
    EightFours(p.w0, p.w1, p.w2, p.w3, p.w4, p.w5, p.w6, p.w7);
    hide Fours;
  }

  lemma EightFours(a: Word, b: Word, c: Word, d: Word, e: Word, f: Word, g: Word, h: Word)
    ensures Fours([a, b, c, d, e, f, g, h])
      == Four(a) + Four(b) + Four(c) + Four(d) + Four(e) + Four(f) + Four(g) + Four(h)
  {
    FourFours(a, b, c, d);
    FourFours(e, f, g, h);
    FoursConcat([a, b, c, d], [e, f, g, h]);
    assert [a, b, c, d] + [e, f, g, h] == [a, b, c, d, e, f, g, h];
    hide Fours, Four;
    EightParts(Four(a), Four(b), Four(c), Four(d), Four(e), Four(f), Four(g), Four(h));
  }

  lemma EightParts<T>(a: seq<T>, b: seq<T>, c: seq<T>, d: seq<T>, e: seq<T>, f: seq<T>, g: seq<T>, h: seq<T>)
    ensures (a + b + c + d) + (e + f + g + h) == a + b + c + d + e + f + g + h
  {
    var front := a + b + c + d;
    assert front + (e + f + g + h) == front + e + f + g + h;
  }

  lemma FourFours(a: Word, b: Word, c: Word, d: Word)
    ensures Fours([a, b, c, d]) == Four(a) + Four(b) + Four(c) + Four(d)
  {
    FoursStep(d, []);
    FoursStep(c, [d]);
    FoursStep(b, [c, d]);
    FoursStep(a, [b, c, d]);
    hide Four, Fours;
    assert [d] + [] == [d] && [c] + [d] == [c, d] && [b] + [c, d] == [b, c, d] && [a] + [b, c, d] == [a, b, c, d];
  }

  lemma FoursStep(w: Word, h: seq<Word>)
    ensures Fours([]) == [] && Fours([w] + h) == Four(w) + Fours(h)
  {
    hide Four;
    assert ([w] + h)[1..] == h;
  }

  lemma FourZero() ensures Four(0) == [0, 0, 0, 0] {}

  /** A row of one word, zeros, and one word. */
  lemma RowWithZeros(a: Word, z: Word)
    ensures RowOctets(Row(a, 0, 0, 0, 0, 0, 0, z)) == Four(a) + Zeros(24) + Four(z)
  {
    RowByFour(Row(a, 0, 0, 0, 0, 0, 0, z));
    FourZero();
    hide Four, RowOctets;
  }

  function Digest(r: Regs): (s: seq<Octet>)
    ensures |s| == 32
  {
    Octets(FromRegs(r))
  }

  /** A digest from its halves. */
  lemma DigestByHalves(r: Regs)
    ensures Digest(r) == Fours([r.a, r.b, r.c, r.d]) + Fours([r.e, r.f, r.g, r.h])
  {
    OctetsAreFours(FromRegs(r));
    FoursConcat([r.a, r.b, r.c, r.d], [r.e, r.f, r.g, r.h]);
    hide Octets, Four, Fours;
    assert FromRegs(r) == [r.a, r.b, r.c, r.d] + [r.e, r.f, r.g, r.h];
  }

  lemma FirstBlock(p: Row, q: Row, tail: seq<Octet>)
    ensures HashBlocks(Block(p, q) + tail, 1) == Compress(H0, RowWords(p) + RowWords(q))
  {
    WordsOfFours(RowWords(p) + RowWords(q));
    hide Compress, RowWords, Fours, WordsOf;
    var m := Block(p, q) + tail;
    assert m[0..BLOCK] == Block(p, q);
    assert HashBlocks(m, 0) == H0;
  }

  /** The digest of a padded message of one block. */
  lemma OneBlock(p: Row, q: Row, r: Regs)
    requires Compress(H0, RowWords(p) + RowWords(q)) == FromRegs(r)
    ensures DigestPadded(Block(p, q)) == Digest(r)
  {
    hide Block, RowWords, Compress, Octets, HashBlocks;
    FirstBlock(p, q, []);
    assert Block(p, q) + [] == Block(p, q);
  }

  /** The digest of a padded message of two blocks. */
  lemma TwoBlocks(p: Row, q: Row, r: Regs, p2: Row, q2: Row, r2: Regs)
    requires Compress(H0, RowWords(p) + RowWords(q)) == FromRegs(r)
    requires Compress(FromRegs(r), RowWords(p2) + RowWords(q2)) == FromRegs(r2)
    ensures |Block(p, q) + Block(p2, q2)| % BLOCK == 0 && DigestPadded(Block(p, q) + Block(p2, q2)) == Digest(r2)
  {
    FirstBlock(p, q, Block(p2, q2));
    WordsOfFours(RowWords(p2) + RowWords(q2));
    hide RowWords, Compress, Octets, Fours, WordsOf;
    var m := Block(p, q) + Block(p2, q2);
    assert m[BLOCK..2 * BLOCK] == Block(p2, q2);
    HashBlocksStep(m, 1);
    hide HashBlocks;
  }
}
