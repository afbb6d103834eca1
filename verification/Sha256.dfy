/**
  The streaming SHA-256 and HMAC-SHA-256 class of cryptosuite, with its C unions seen as
  arrays of words whose bytes lie in memory least significant first.
 */
module Cryptosuite {
  import opened Fips180

  // ----- the byte view of a union of bytes and 32-bit words -----

  /** The byte at index k of the words, in memory order. */
  function ByteAt(words: seq<Word>, k: nat): Octet
    requires k < 4 * |words|
  {
    OctetOf(words[k / 4], 3 - k % 4)
  }

  function With0(w: Word, v: Octet): Word { (w & 0x00ffffff) | (v as Word << 24) }
  function With1(w: Word, v: Octet): Word { (w & 0xff00ffff) | (v as Word << 16) }
  function With2(w: Word, v: Octet): Word { (w & 0xffff00ff) | (v as Word << 8) }
  function With3(w: Word, v: Octet): Word { (w & 0xffffff00) | (v as Word) }

  /** Word w with octet k replaced by v. */
  function WithOctet(w: Word, k: nat, v: Octet): Word
    requires k < 4
  {
    if k == 0 then With0(w, v) else if k == 1 then With1(w, v) else if k == 2 then With2(w, v) else With3(w, v)
  }

  /** The index `offset ^ 3`, which turns arrival order into big-endian words. */
  function Swizzle(offset: nat): (k: nat)
    ensures k / 4 == offset / 4
  {
    offset - offset % 4 + (3 - offset % 4)
  }

  function XorThree(b: Octet): Octet { b ^ 3 }

  /** Swizzle is the exclusive or that the C++ code writes. */
  lemma SwizzleIsXor(offset: nat)
    requires offset < BLOCK
    ensures XorThree(offset as Octet) as nat == Swizzle(offset)
  {
    hide XorThree;
    var b := SwizzledOctetOf(offset);
    FromValue(b);
  }

  lemma {:induction false} SwizzledOctetOf(offset: nat) returns (b: Octet)
    requires offset < BLOCK
    ensures b as nat == offset && XorThree(b) as nat == Swizzle(offset)
  {
    hide XorThree, Swizzle;
    if offset < 4 {
      b := FirstSwizzled(offset);
    } else {
      var c := SwizzledOctetOf(offset - 4);
      SwizzleOfNext(offset);
      FourOn(c);
      XorCommutesWithFour(c);
      FourOn(XorThree(c));
      b := c + 4;
    }
  }

  lemma FirstSwizzled(offset: nat) returns (b: Octet)
    requires offset < 4
    ensures b as nat == offset && XorThree(b) as nat == Swizzle(offset)
  {
    XorOfFirst();
    FirstOctets();
    hide XorThree;
    b := if offset == 0 then 0 else if offset == 1 then 1 else if offset == 2 then 2 else 3;
  }

  lemma FirstOctets()
    ensures (0 as Octet) as nat == 0 && (1 as Octet) as nat == 1 && (2 as Octet) as nat == 2 && (3 as Octet) as nat == 3
  {
  }

  lemma SwizzleOfNext(offset: nat)
    requires 4 <= offset < BLOCK
    ensures Swizzle(offset) == Swizzle(offset - 4) + 4 < BLOCK
  {
  }

  lemma XorOfFirst()
    ensures XorThree(0) == 3 && XorThree(1) == 2 && XorThree(2) == 1 && XorThree(3) == 0
  {
  }

  lemma XorCommutesWithFour(b: Octet)
    ensures XorThree(b + 4) == XorThree(b) + 4
  {
  }

  lemma FourOn(b: Octet)
    requires b as nat < 252
    ensures (b + 4) as nat == b as nat + 4
  {
    NextValue(b);
    NextValue(b + 1);
    NextValue(b + 1 + 1);
    NextValue(b + 1 + 1 + 1);
    assert b + 1 + 1 + 1 + 1 == b + 4;
  }

  lemma OctetsOfWith0(w: Word, v: Octet)
    ensures Octet0(With0(w, v)) == v
    ensures Octet1(With0(w, v)) == Octet1(w)
    ensures Octet2(With0(w, v)) == Octet2(w)
    ensures Octet3(With0(w, v)) == Octet3(w)
  {
  }

  lemma OctetsOfWith1(w: Word, v: Octet)
    ensures Octet0(With1(w, v)) == Octet0(w)
    ensures Octet1(With1(w, v)) == v
    ensures Octet2(With1(w, v)) == Octet2(w)
    ensures Octet3(With1(w, v)) == Octet3(w)
  {
  }

  lemma OctetsOfWith2(w: Word, v: Octet)
    ensures Octet0(With2(w, v)) == Octet0(w)
    ensures Octet1(With2(w, v)) == Octet1(w)
    ensures Octet2(With2(w, v)) == v
    ensures Octet3(With2(w, v)) == Octet3(w)
  {
  }

  lemma OctetsOfWith3(w: Word, v: Octet)
    ensures Octet0(With3(w, v)) == Octet0(w)
    ensures Octet1(With3(w, v)) == Octet1(w)
    ensures Octet2(With3(w, v)) == Octet2(w)
    ensures Octet3(With3(w, v)) == v
  {
  }

  lemma OctetOfWithOctet(w: Word, k: nat, v: Octet, j: nat)
    requires k < 4 && j < 4
    ensures OctetOf(WithOctet(w, k, v), j) == if j == k then v else OctetOf(w, j)
  {
    hide Octet0, Octet1, Octet2, Octet3, With0, With1, With2, With3;
    if k == 0 {
      OctetsOfWith0(w, v);
    } else if k == 1 {
      OctetsOfWith1(w, v);
    } else if k == 2 {
      OctetsOfWith2(w, v);
    } else {
      OctetsOfWith3(w, v);
    }
  }

  lemma WordFromOctets(w: Word)
    ensures w == BeWord(Octet0(w), Octet1(w), Octet2(w), Octet3(w))
  {
  }

  /** Storing a byte at the swizzled offset puts it in arrival order and moves no other byte. */
  lemma StoreOctet(before: seq<Word>, after: seq<Word>, offset: nat, data: Octet)
    requires |before| == 16 && offset < BLOCK
    requires var k := Swizzle(offset); after == before[k / 4 := WithOctet(before[k / 4], 3 - k % 4, data)]
    ensures ByteAt(after, Swizzle(offset)) == data
    ensures forall j :: 0 <= j < BLOCK && j != offset ==> ByteAt(after, Swizzle(j)) == ByteAt(before, Swizzle(j))
  {
    hide OctetOf, WithOctet;
    forall j | 0 <= j < BLOCK
      ensures ByteAt(after, Swizzle(j)) == if j == offset then data else ByteAt(before, Swizzle(j))
    {
      OctetOfWithOctet(before[offset / 4], offset % 4, data, j % 4);
    }
  }

  lemma SwizzledOctet(words: seq<Word>, t: nat, k: nat)
    requires |words| == 16 && t < 16 && k < 4
    ensures ByteAt(words, Swizzle(4 * t + k)) == OctetOf(words[t], k)
  {
    hide OctetOf;
  }

  /** A buffer filled in swizzled order holds the big-endian words of the block. */
  lemma FullBuffer(words: seq<Word>, block: seq<Octet>)
    requires |words| == 16 && |block| == BLOCK
    requires forall j :: 0 <= j < BLOCK ==> ByteAt(words, Swizzle(j)) == block[j]
    ensures words == WordsOf(block)
  {
    hide Octet0, Octet1, Octet2, Octet3, BeWord, Swizzle, ByteAt;
    forall t | 0 <= t < 16
      ensures words[t] == WordsOf(block)[t]
    {
      SwizzledOctet(words, t, 0);
      SwizzledOctet(words, t, 1);
      SwizzledOctet(words, t, 2);
      SwizzledOctet(words, t, 3);
      WordFromOctets(words[t]);
    }
  }

  /** The loop stops with the buffer offset at 56, which is when the standard's zeros have been added. */
  lemma PaddingProgress(n: nat, z: nat)
    requires z <= ZeroCount(n)
    ensures (n + 1 + z) % BLOCK == 56 <==> z == ZeroCount(n)
  {
  }

  lemma ZerosGrow(z: nat)
    ensures Zeros(z + 1) == Zeros(z) + [0]
  {
  }

  lemma AppendedEight<T>(p: seq<T>, a: T, b: T, c: T, d: T, e: T, f: T, g: T, h: T)
    ensures p + [a] + [b] + [c] + [d] + [e] + [f] + [g] + [h] == p + [a, b, c, d, e, f, g, h]
  {
    assert p + [a] + [b] + [c] + [d] == p + [a, b, c, d];
  }

  lemma LengthOctets(n: nat)
    requires n < TWO32
    ensures Be64(8 * n) == [0, 0, 0, ToOctet(n / 0x2000_0000), ToOctet(n / 0x20_0000), ToOctet(n / 0x2000),
                            ToOctet(n / 0x20), ToOctet(n * 8 % TWO32)]
  {
    assert ToOctet(0) == 0;
    ToOctetOfEqual(8 * n, n * 8 % TWO32);
    LengthShifts(n);
    hide ToOctet;
  }

  lemma LengthShifts(n: nat)
    requires n < TWO32
    ensures 8 * n / 0x100_0000_0000_0000 == 8 * n / 0x1_0000_0000_0000 == 8 * n / 0x100_0000_0000 == 0
    ensures 8 * n / TWO32 == n / 0x2000_0000 && 8 * n / 0x100_0000 == n / 0x20_0000
    ensures 8 * n / 0x1_0000 == n / 0x2000 && 8 * n / 0x100 == n / 0x20
  {
  }

  lemma ToOctetOfEqual(m: nat, n: nat)
    requires m % 256 == n % 256
    ensures ToOctet(m) == ToOctet(n)
  {
  }

  function SwapOrder(a: Word): Word
  {
    (a << 24) | ((a << 8) & 0x00ff0000) | ((a >> 8) & 0x0000ff00) | (a >> 24)
  }

  lemma SwapOrderOctets(a: Word)
    ensures Octet3(SwapOrder(a)) == Octet0(a) && Octet2(SwapOrder(a)) == Octet1(a)
    ensures Octet1(SwapOrder(a)) == Octet2(a) && Octet0(SwapOrder(a)) == Octet3(a)
  {
  }

  lemma SwapOrderReverses(a: Word, k: nat)
    requires k < 4
    ensures OctetOf(SwapOrder(a), 3 - k) == OctetOf(a, k)
  {
    hide Octet0, Octet1, Octet2, Octet3, SwapOrder;
    SwapOrderOctets(a);
  }

  function Ror32(number: Word, bits: nat): (r: Word)
    requires 0 < bits < 32
    ensures r == RotR(number, bits)
  {
    (number << (32 - bits)) | (number >> bits)
  }

  lemma ChooseAndMajority(x: Word, y: Word, z: Word)
    ensures z ^ (x & (z ^ y)) == Ch(x, y, z)
    ensures (y & z) | (x & (y | z)) == Maj(x, y, z)
  {
  }

  lemma Add4InOrder(a: Word, b: Word, c: Word, d: Word)
    ensures Add4(a, b, c, d) == Add4(c, b, d, a)
  {
  }

  lemma NextWordAsWritten(w2: Word, w7: Word, w15: Word, w16: Word)
    ensures Add4(w16, w7, Ror32(w2, 17) ^ Ror32(w2, 19) ^ (w2 >> 10), Ror32(w15, 7) ^ Ror32(w15, 18) ^ (w15 >> 3))
      == NextWord(w2, w7, w15, w16)
  {
    hide Ror32, RotR, Add4;
    assert Ror32(w2, 17) ^ Ror32(w2, 19) ^ (w2 >> 10) == SmallSigma1(w2);
    assert Ror32(w15, 7) ^ Ror32(w15, 18) ^ (w15 >> 3) == SmallSigma0(w15);
    Add4InOrder(w16, w7, SmallSigma1(w2), SmallSigma0(w15));
  }

  lemma RoundFromParts(r: Regs, k: Word, w: Word, s1: Word, ch: Word, s0: Word, maj: Word)
    requires s1 == BigSigma1(r.e) && ch == Ch(r.e, r.f, r.g) && s0 == BigSigma0(r.a) && maj == Maj(r.a, r.b, r.c)
    ensures
      var t1 := Add(Add(Add(Add(r.h, s1), ch), k), w);
      var t2 := Add(s0, maj);
      Regs(Add(t1, t2), r.a, r.b, r.c, Add(r.d, t1), r.e, r.f, r.g) == Round(r, k, w)
  {
    hide Add, Ch, Maj, BigSigma0, BigSigma1;
  }

  lemma BigSigmasAsWritten(x: Word)
    ensures Ror32(x, 6) ^ Ror32(x, 11) ^ Ror32(x, 25) == BigSigma1(x)
    ensures Ror32(x, 2) ^ Ror32(x, 13) ^ Ror32(x, 22) == BigSigma0(x)
  {
    hide Ror32, RotR;
  }

  /** Before round i the ring holds the schedule words of the last sixteen rounds, in place. */
  ghost predicate Ring(ring: seq<Word>, block: seq<Word>, i: nat)
  {
    |ring| == 16 && |block| == 16
    && forall k: nat {:trigger Schedule(block, k)} ::
         i <= k + 16 && k < (if i < 16 then 16 else i) ==> ring[k % 16] == Schedule(block, k)
  }

  lemma ScheduleStep(block: seq<Word>, i: nat)
    requires |block| == 16 && i >= 16
    ensures Schedule(block, i) == NextWord(Schedule(block, i - 2), Schedule(block, i - 7),
                                           Schedule(block, i - 15), Schedule(block, i - 16))
  {
    hide NextWord;
  }

  lemma RingStep(ring: seq<Word>, block: seq<Word>, i: nat)
    requires i >= 16 && Ring(ring, block, i)
    ensures Schedule(block, i) == NextWord(ring[(i - 2) % 16], ring[(i - 7) % 16], ring[(i - 15) % 16], ring[i % 16])
    ensures Ring(ring[i % 16 := Schedule(block, i)], block, i + 1)
  {
    hide NextWord, Schedule;
    ScheduleStep(block, i);
    assert (i - 16) % 16 == i % 16 by { assert i % 16 == (i - 16 + 16) % 16; }
    forall k: nat | i + 1 <= k + 16 && k < i
      ensures ring[i % 16 := Schedule(block, i)][k % 16] == Schedule(block, k)
    {
      SlotsDiffer(k, i);
    }
  }

  lemma SlotsDiffer(k: nat, i: nat)
    requires k < i < k + 16
    ensures k % 16 != i % 16
  {
  }

  lemma RingAt(ring: seq<Word>, block: seq<Word>, i: nat)
    requires Ring(ring, block, i + 1)
    ensures ring[i % 16] == Schedule(block, i)
  {
    hide Schedule;
    var w := Schedule(block, i);
  }

  lemma RingSkip(ring: seq<Word>, block: seq<Word>, i: nat)
    requires i < 16 && Ring(ring, block, i)
    ensures Ring(ring, block, i + 1)
  {
  }

  lemma RingStart(block: seq<Word>)
    requires |block| == 16
    ensures Ring(block, block, 0)
  {
  }

  lemma RoundsStep(r: Regs, block: seq<Word>, i: nat)
    requires |block| == 16 && i < 64
    ensures Rounds(r, block, 0) == r
    ensures Rounds(r, block, i + 1) == Round(Rounds(r, block, i), K(i), Schedule(block, i))
  {
    hide Round, K, Schedule;
  }

  lemma HashBlocksStep(m: seq<Octet>, n: nat)
    requires (n + 1) * BLOCK <= |m|
    ensures HashBlocks(m, n + 1) == Compress(HashBlocks(m, n), WordsOf(m[n * BLOCK..(n + 1) * BLOCK]))
  {
    hide Compress, WordsOf;
  }

  /** The hash state covers the whole blocks of `fed` and the buffer holds the rest, swizzled. */
  ghost predicate Absorbed(fed: seq<Octet>, offset: nat, state: seq<Word>, buffer: seq<Word>)
  {
    |buffer| == 16
    && offset == |fed| % BLOCK
    && state == HashBlocks(fed, |fed| / BLOCK)
    && forall j :: 0 <= j < offset ==> ByteAt(buffer, Swizzle(j)) == fed[|fed| - offset + j]
  }

  lemma AbsorbOctet(fed: seq<Octet>, offset: nat, state: seq<Word>, buffer: seq<Word>, data: Octet, stored: seq<Word>)
    requires Absorbed(fed, offset, state, buffer)
    requires var k := Swizzle(offset); stored == buffer[k / 4 := WithOctet(buffer[k / 4], 3 - k % 4, data)]
    ensures offset + 1 < BLOCK ==> Absorbed(fed + [data], offset + 1, state, stored)
    ensures offset + 1 == BLOCK ==>
      |state| == 8 && |stored| == 16
      && forall rest :: |rest| == 16 ==> Absorbed(fed + [data], 0, Compress(state, stored), rest)
  {
    hide HashBlocks, Compress, WordsOf, ByteAt, Swizzle;
    StoreOctet(buffer, stored, offset, data);
    var base := |fed| - offset;
    HashBlocksOfPrefix(fed, [data], base / BLOCK);
    if offset + 1 < BLOCK {
      assert |fed + [data]| / BLOCK == base / BLOCK;
    } else {
      FullBuffer(stored, (fed + [data])[base..base + BLOCK]);
      HashBlocksStep(fed + [data], base / BLOCK);
    }
  }

  class Sha256Class {
    const state: array<Word>
    const buffer: array<Word>
    var bufferOffset: nat
    var byteCount: nat
    const keyBuffer: array<Octet>
    const innerHash: array<Octet>
    /** Every byte added since the last Init, padding included. */
    ghost var fed: seq<Octet>

    ghost predicate Shape()
    {
      state.Length == 8 && buffer.Length == 16 && state != buffer
      && keyBuffer.Length == BLOCK && innerHash.Length == 32 && keyBuffer != innerHash
    }

    ghost predicate Valid()
      reads this`fed, this`bufferOffset, state, buffer
    {
      Shape() && Absorbed(fed, bufferOffset, state[..], buffer[..])
    }

    /** Valid, and only counted bytes were added. */
    ghost predicate Counting()
      reads this, state, buffer
    {
      Shape() && Valid() && byteCount == |fed| % TWO32
    }

    constructor ()
      ensures Shape() && fresh(state) && fresh(buffer) && fresh(keyBuffer) && fresh(innerHash)
    {
      state := new Word[8];
      buffer := new Word[16];
      keyBuffer := new Octet[BLOCK];
      innerHash := new Octet[32];
      bufferOffset, byteCount, fed := 0, 0, [];
    }

    method Init()
      requires Shape()
      modifies this, state
      ensures Counting() && fed == []
    {
      // The initial state as the bytes that memcpy_P copies.
      var initState: seq<seq<Octet>> :=
        [[0x67, 0xe6, 0x09, 0x6a], [0x85, 0xae, 0x67, 0xbb], [0x72, 0xf3, 0x6e, 0x3c], [0x3a, 0xf5, 0x4f, 0xa5],
         [0x7f, 0x52, 0x0e, 0x51], [0x8c, 0x68, 0x05, 0x9b], [0xab, 0xd9, 0x83, 0x1f], [0x19, 0xcd, 0xe0, 0x5b]];
      for i := 0 to 8
        invariant forall j :: 0 <= j < i ==> state[j] == H0[j]
      {
        var b := initState[i];
        state[i] := BeWord(b[3], b[2], b[1], b[0]);
      }
      byteCount := 0;
      bufferOffset := 0;
      fed := [];
    }

    method HashBlock()
      requires Shape()
      modifies state, buffer
      ensures state[..] == Compress(old(state[..]), old(buffer[..]))
    {
      hide Ror32, RotR, Add, Add4, K, NextWord, Round, Ch, Maj, BigSigma0, BigSigma1, Schedule, Rounds, AddWords, Ring;
      ghost var block := buffer[..];
      ghost var before := state[..];
      ghost var start := ToRegs(before);
      var a, b, c, d := state[0], state[1], state[2], state[3];
      var e, f, g, h := state[4], state[5], state[6], state[7];
      RingStart(block);
      RoundsStep(start, block, 0);
      var i := 0;
      while i < 64
        invariant 0 <= i <= 64
        invariant state[..] == before
        invariant Regs(a, b, c, d, e, f, g, h) == Rounds(start, block, i)
        invariant Ring(buffer[..], block, i)
      {
        var t1, t2: Word;
        if i >= 16 {
          // The three additions into t1, as one sum.
          var w2, w15 := buffer[(i - 2) % 16], buffer[(i - 15) % 16];
          t1 := Add4(buffer[i % 16], buffer[(i - 7) % 16],
                     Ror32(w2, 17) ^ Ror32(w2, 19) ^ (w2 >> 10),
                     Ror32(w15, 7) ^ Ror32(w15, 18) ^ (w15 >> 3));
          RingStep(buffer[..], block, i);
          NextWordAsWritten(w2, buffer[(i - 7) % 16], w15, buffer[i % 16]);
          buffer[i % 16] := t1;
        } else {
          RingSkip(buffer[..], block, i);
        }
        RingAt(buffer[..], block, i);
        RoundsStep(start, block, i);
        t1 := h;
        t1 := Add(t1, Ror32(e, 6) ^ Ror32(e, 11) ^ Ror32(e, 25));
        t1 := Add(t1, g ^ (e & (g ^ f)));
        t1 := Add(t1, K(i));
        t1 := Add(t1, buffer[i % 16]);
        t2 := Ror32(a, 2) ^ Ror32(a, 13) ^ Ror32(a, 22);
        t2 := Add(t2, (b & c) | (a & (b | c)));
        BigSigmasAsWritten(e);
        BigSigmasAsWritten(a);
        ChooseAndMajority(e, f, g);
        ChooseAndMajority(a, b, c);
        RoundFromParts(Regs(a, b, c, d, e, f, g, h), K(i), Schedule(block, i),
                       Ror32(e, 6) ^ Ror32(e, 11) ^ Ror32(e, 25), g ^ (e & (g ^ f)),
                       Ror32(a, 2) ^ Ror32(a, 13) ^ Ror32(a, 22), (b & c) | (a & (b | c)));
        h, g, f, e := g, f, e, Add(d, t1);
        d, c, b, a := c, b, a, Add(t1, t2);
        i := i + 1;
      }
      AddToState([a, b, c, d, e, f, g, h]);
    }

    /** The eight additions that end a block. */
    method AddToState(x: seq<Word>)
      requires Shape() && |x| == 8
      modifies state
      ensures state[..] == AddWords(old(state[..]), x)
    {
      hide Add;
      for i := 0 to 8
        invariant forall j :: 0 <= j < 8 ==> state[j] == if j < i then Add(old(state[j]), x[j]) else old(state[j])
      {
        state[i] := Add(state[i], x[i]);
      }
    }

    method AddUncounted(data: Octet)
      requires Valid()
      modifies this, state, buffer
      ensures Valid() && fed == old(fed) + [data] && byteCount == old(byteCount)
      ensures bufferOffset == |fed| % BLOCK
    {
      hide HashBlocks, Compress, WithOctet, Swizzle, XorThree;
      SwizzleIsXor(bufferOffset);
      var k := XorThree(bufferOffset as Octet) as nat;
      ghost var words := buffer[..];
      buffer[k / 4] := WithOctet(buffer[k / 4], 3 - k % 4, data);
      AbsorbOctet(fed, bufferOffset, state[..], words, data, buffer[..]);
      fed := fed + [data];
      bufferOffset := bufferOffset + 1;
      if bufferOffset == BLOCK {
        HashBlock();
        bufferOffset := 0;
      }
    }

    method Write(data: Octet)
      requires Counting()
      modifies this, state, buffer
      ensures Counting() && fed == old(fed) + [data]
    {
      hide Valid;
      byteCount := (byteCount + 1) % TWO32;
      AddUncounted(data);
    }

    method Pad()
      requires Counting()
      modifies this, state, buffer
      ensures Valid() && fed == PadAs(old(fed), old(byteCount))
    {
      hide Valid, Be64, ZeroCount, Zeros;
      ghost var m := fed;
      ghost var z := 0;
      AddUncounted(0x80);
      assert fed == m + [0x80] + Zeros(z);
      while bufferOffset != 56
        invariant Valid() && byteCount == old(byteCount) && bufferOffset == |fed| % BLOCK
        invariant z <= ZeroCount(|m|) && fed == m + [0x80] + Zeros(z)
        decreases ZeroCount(|m|) - z
      {
        PaddingProgress(|m|, z);
        ZerosGrow(z);
        AddUncounted(0x00);
        z := z + 1;
        assert m + [0x80] + Zeros(z - 1) + [0x00] == m + [0x80] + Zeros(z);
      }
      PaddingProgress(|m|, z);
      AddLength();
    }

    /** The last eight bytes of the padding. */
    method AddLength()
      requires Valid() && byteCount < TWO32
      modifies this, state, buffer
      ensures Valid() && fed == old(fed) + Be64(8 * old(byteCount))
    {
      hide Valid, Be64, ToOctet;
      ghost var p := fed;
      AddUncounted(0);
      AddUncounted(0);
      AddUncounted(0);
      AddUncounted(ToOctet(byteCount / 0x2000_0000));
      AddUncounted(ToOctet(byteCount / 0x20_0000));
      AddUncounted(ToOctet(byteCount / 0x2000));
      AddUncounted(ToOctet(byteCount / 0x20));
      AddUncounted(ToOctet(byteCount * 8 % TWO32));
      LengthOctets(byteCount);
      AppendedEight(p, 0, 0, 0, ToOctet(byteCount / 0x2000_0000), ToOctet(byteCount / 0x20_0000),
                    ToOctet(byteCount / 0x2000), ToOctet(byteCount / 0x20), ToOctet(byteCount * 8 % TWO32));
    }

    /**
      The digest bytes, read from memory after the byte order of each word was swapped back.
      The state is no longer a hash value in progress afterwards: only Init makes it one again.
     */
    method Result() returns (digest: seq<Octet>)
      requires Counting()
      modifies this, state, buffer
      ensures digest == DigestPadded(PadAs(old(fed), old(byteCount)))
    {
      hide HashBlocks, OctetOf, SwapOrder, PadAs;
      Pad();
      ghost var h := state[..];
      for i := 0 to 8
        invariant forall j :: 0 <= j < 8 ==> state[j] == if j < i then SwapOrder(h[j]) else h[j]
      {
        state[i] := SwapOrder(state[i]);
      }
      digest := seq(32, i requires 0 <= i < 32 reads state => ByteAt(state[..], i));
      forall i | 0 <= i < 32
        ensures digest[i] == Octets(h)[i]
      {
        SwapOrderReverses(h[i / 4], i % 4);
      }
    }

    /** A loop of writes over a byte array. */
    method WriteAll(bytes: seq<Octet>)
      requires Counting()
      modifies this, state, buffer
      ensures Counting() && fed == old(fed) + bytes
    {
      hide Valid;
      for i := 0 to |bytes|
        invariant Counting() && fed == old(fed) + bytes[..i]
      {
        Write(bytes[i]);
        assert bytes[..i + 1] == bytes[..i] + [bytes[i]];
      }
      assert bytes[..|bytes|] == bytes;
    }

    /** A loop of writes over the key buffer, each byte combined with the pad. */
    method WriteKeyBuffer(pad: Octet)
      requires Counting() && fed == []
      modifies this, state, buffer
      ensures Counting() && fed == XorEach(keyBuffer[..], pad)
    {
      hide Valid;
      for i := 0 to BLOCK
        invariant Counting() && fed == XorEach(keyBuffer[..], pad)[..i]
      {
        Write(keyBuffer[i] ^ pad);
      }
    }

    method CopyToKeyBuffer(bytes: seq<Octet>)
      requires Shape() && |bytes| <= BLOCK
      modifies keyBuffer
      ensures keyBuffer[..] == bytes + old(keyBuffer[..])[|bytes|..]
    {
      for i := 0 to |bytes|
        invariant forall j :: 0 <= j < BLOCK ==> keyBuffer[j] == if j < i then bytes[j] else old(keyBuffer[j])
      {
        keyBuffer[i] := bytes[i];
      }
    }

    /** keyLength is a C int, so a key shorter than 2^31 bytes. */
    method InitHmac(key: seq<Octet>)
      requires Shape() && |key| < 0x8000_0000
      modifies this, state, buffer, keyBuffer
      ensures Counting() && fed == XorEach(BlockKey(key), 0x36)
      ensures keyBuffer[..] == BlockKey(key)
    {
      hide Valid, DigestPadded, PadAs;
      for i := 0 to BLOCK
        invariant forall j :: 0 <= j < i ==> keyBuffer[j] == 0
      {
        keyBuffer[i] := 0;
      }
      if |key| > BLOCK {
        Init();
        WriteAll(key);
        assert fed == key;
        var digest := Result();
        CopyToKeyBuffer(digest);
      } else {
        CopyToKeyBuffer(key);
      }
      assert keyBuffer[..] == BlockKey(key);
      Init();
      WriteKeyBuffer(0x36);
    }

    method ResultHmac() returns (mac: seq<Octet>)
      requires Counting()
      modifies this, state, buffer, innerHash
      ensures mac == Sha256(XorEach(old(keyBuffer[..]), 0x5c) + DigestPadded(PadAs(old(fed), old(byteCount))))
    {
      hide Valid, DigestPadded, PadAs;
      var inner := Result();
      for i := 0 to 32
        invariant innerHash[..i] == inner[..i]
      {
        innerHash[i] := inner[i];
      }
      assert innerHash[..] == inner;
      Init();
      WriteKeyBuffer(0x5c);
      WriteAll(innerHash[..]);
      mac := Result();
    }
  }

  // ----- whole runs -----

  /** The 32-bit counter announces the true length exactly for messages shorter than 2^32 bytes. */
  lemma CounterFitsIff(m: seq<Octet>)
    requires 8 * |m| < TWO32 * TWO32
    ensures PadAs(m, |m| % TWO32) == Pad(m) <==> |m| < TWO32
  {
    hide Be64, ZeroCount, Zeros;
    var p := m + [0x80] + Zeros(ZeroCount(|m|));
    if PadAs(m, |m| % TWO32) == Pad(m) {
      assert (p + Be64(8 * (|m| % TWO32)))[|p|..] == Be64(8 * (|m| % TWO32));
      assert (p + Be64(8 * |m|))[|p|..] == Be64(8 * |m|);
      Be64Injective(8 * (|m| % TWO32), 8 * |m|);
    }
  }

  lemma Be64Injective(m: nat, n: nat)
    requires m < TWO32 * TWO32 && n < TWO32 * TWO32
    requires Be64(m) == Be64(n)
    ensures m == n
  {
    hide ToOctet;
    var s, t := Be64(m), Be64(n);
    assert s[0] == t[0] && s[1] == t[1] && s[2] == t[2] && s[3] == t[3];
    assert s[4] == t[4] && s[5] == t[5] && s[6] == t[6] && s[7] == t[7];
    NextFour(m / TWO32, n / TWO32);
    NextFour(m, n);
  }

  lemma NextFour(m: nat, n: nat)
    requires m / TWO32 == n / TWO32
    requires ToOctet(m / 0x100_0000) == ToOctet(n / 0x100_0000) && ToOctet(m / 0x1_0000) == ToOctet(n / 0x1_0000)
    requires ToOctet(m / 0x100) == ToOctet(n / 0x100) && ToOctet(m) == ToOctet(n)
    ensures m == n
  {
    hide ToOctet;
    DropOctets(m);
    DropOctets(n);
    NextOctet(m / 0x100_0000, n / 0x100_0000);
    NextOctet(m / 0x1_0000, n / 0x1_0000);
    NextOctet(m / 0x100, n / 0x100);
    NextOctet(m, n);
  }

  lemma DropOctets(m: nat)
    ensures m / 0x100_0000 / 256 == m / TWO32
    ensures m / 0x1_0000 / 256 == m / 0x100_0000
    ensures m / 0x100 / 256 == m / 0x1_0000
  {
  }

  lemma NextOctet(m: nat, n: nat)
    requires m / 256 == n / 256 && ToOctet(m) == ToOctet(n)
    ensures m == n
  {
    OctetValue(m % 256);
    OctetValue(n % 256);
  }

  lemma {:induction false} OctetValue(n: nat)
    requires n < 256
    ensures (n as Octet) as nat == n
  {
    var b := OctetWithValue(n);
    FromValue(b);
  }

  lemma {:induction false} OctetWithValue(n: nat) returns (b: Octet)
    requires n < 256
    ensures b as nat == n
  {
    if n == 0 {
      b := 0;
    } else {
      var c := OctetWithValue(n - 1);
      NextValue(c);
      b := c + 1;
    }
  }

  lemma NextValue(b: Octet)
    ensures b != 255 ==> (b + 1) as nat == b as nat + 1
  {
  }

  lemma FromValue(b: Octet)
    ensures (b as nat) as Octet == b
  {
  }

  /** Init, one Write for each byte and Result, on an object in any state. */
  method Hash(sha: Sha256Class, m: seq<Octet>) returns (digest: seq<Octet>)
    requires sha.Shape()
    modifies sha, sha.state, sha.buffer
    ensures digest == DigestPadded(PadAs(m, |m| % TWO32))
    ensures |m| < TWO32 ==> digest == Sha256(m)
  {
    hide DigestPadded, PadAs, Sha256Class.Valid;
    sha.Init();
    sha.WriteAll(m);
    assert sha.fed == m;
    digest := sha.Result();
  }

  /** InitHmac, one Write for each byte and ResultHmac, on an object in any state. */
  method Authenticate(sha: Sha256Class, key: seq<Octet>, text: seq<Octet>) returns (mac: seq<Octet>)
    requires sha.Shape() && |key| < 0x8000_0000
    modifies sha, sha.state, sha.buffer, sha.keyBuffer, sha.innerHash
    ensures BLOCK + |text| < TWO32 ==> mac == Hmac(key, text)
  {
    hide DigestPadded, PadAs, BlockKey, XorEach, Sha256Class.Valid;
    sha.InitHmac(key);
    sha.WriteAll(text);
    mac := sha.ResultHmac();
  }
}
