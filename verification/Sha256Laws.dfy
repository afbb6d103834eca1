/** Laws of SHA-256 and HMAC that do not rest on how they are computed. */
module Sha256Laws {
  import opened Fips180
  import opened Cryptosuite

  // ----- a block undone -----

  function Sub(x: Word, y: Word): Word { x - y }

  lemma SubAdds(x: Word, y: Word)
    ensures Sub(Add(x, y), y) == x && Sub(Add(x, y), x) == y
  {
  }

  /** The registers before a round, from those after it. */
  function Unround(r: Regs, k: Word, w: Word): Regs
  {
    var t1 := Sub(r.a, Add(BigSigma0(r.b), Maj(r.b, r.c, r.d)));
    Regs(r.b, r.c, r.d, Sub(r.e, t1), r.f, r.g, r.h, Sub(Sub(Sub(Sub(t1, w), k), Ch(r.f, r.g, r.h)), BigSigma1(r.f)))
  }

  lemma RoundUndone(r: Regs, k: Word, w: Word)
    ensures Unround(Round(r, k, w), k, w) == r
  {
    hide Add, Sub, BigSigma0, BigSigma1, Ch, Maj;
    var x1 := Add(r.h, BigSigma1(r.e));
    var x2 := Add(x1, Ch(r.e, r.f, r.g));
    var x3 := Add(x2, k);
    var t1 := Add(x3, w);
    SubAdds(t1, Add(BigSigma0(r.a), Maj(r.a, r.b, r.c)));
    SubAdds(r.d, t1);
    SubAdds(x3, w);
    SubAdds(x2, k);
    SubAdds(x1, Ch(r.e, r.f, r.g));
    SubAdds(r.h, BigSigma1(r.e));
  }

  /** The last n rounds undone, the last one first. */
  function UndoRounds(r: Regs, block: seq<Word>, n: nat): Regs
    requires |block| == 16 && n <= 64
    decreases n
  {
    if n == 0 then r else UndoRounds(Unround(r, K(n - 1), Schedule(block, n - 1)), block, n - 1)
  }

  lemma {:induction false} RoundsUndone(r: Regs, block: seq<Word>, n: nat)
    requires |block| == 16 && n <= 64
    ensures UndoRounds(Rounds(r, block, n), block, n) == r
  {
    hide Round, Unround, K, Schedule;
    if n > 0 {
      RoundUndone(Rounds(r, block, n - 1), K(n - 1), Schedule(block, n - 1));
      RoundsUndone(r, block, n - 1);
    }
  }

  function SubWords(x: seq<Word>, h: seq<Word>): (d: seq<Word>)
    requires |x| == |h| == 8
    ensures |d| == 8
  {
    seq(8, i requires 0 <= i < 8 => Sub(x[i], h[i]))
  }

  /** Undoing rounds 63 to 0 on what a block added to the hash value gives the hash value before it. */
  lemma CompressUndone(h: seq<Word>, block: seq<Word>)
    requires |h| == 8 && |block| == 16
    ensures FromRegs(UndoRounds(ToRegs(SubWords(Compress(h, block), h)), block, 64)) == h
  {
    hide AddWords, SubWords, Rounds, UndoRounds;
    var r := Rounds(ToRegs(h), block, 64);
    AddedWords(h, FromRegs(r));
    RoundsUndone(ToRegs(h), block, 64);
    RegsAndWords(r, h);
  }

  lemma RegsAndWords(r: Regs, h: seq<Word>)
    requires |h| == 8
    ensures ToRegs(FromRegs(r)) == r && FromRegs(ToRegs(h)) == h
  {
  }

  lemma AddedWords(h: seq<Word>, x: seq<Word>)
    requires |h| == |x| == 8
    ensures SubWords(AddWords(h, x), h) == x
  {
    hide Add, Sub;
    forall i | 0 <= i < 8
      ensures SubWords(AddWords(h, x), h)[i] == x[i]
    {
      SubAdds(h[i], x[i]);
    }
  }

  // ----- the announced length -----

  /** The number that the octets spell, most significant first. */
  function BigEndian(s: seq<Octet>): nat
  {
    if s == [] then 0 else 256 * BigEndian(s[..|s| - 1]) + s[|s| - 1] as nat
  }

  lemma BigEndianPush(s: seq<Octet>, n: nat)
    ensures BigEndian(s + [ToOctet(n)]) == 256 * BigEndian(s) + n % 256
  {
    OctetValue(n % 256);
    assert (s + [ToOctet(n)])[..|s|] == s;
  }

  /** The low 32 bits of n, most significant octet first. */
  function LowFour(n: nat): seq<Octet>
  {
    [ToOctet(n / 0x100_0000), ToOctet(n / 0x1_0000), ToOctet(n / 0x100), ToOctet(n)]
  }

  lemma FourPushes(s: seq<Octet>, a: nat, b: nat, c: nat, d: nat)
    ensures BigEndian(s + [ToOctet(a), ToOctet(b), ToOctet(c), ToOctet(d)])
      == 256 * (256 * (256 * (256 * BigEndian(s) + a % 256) + b % 256) + c % 256) + d % 256
  {
    var s1 := s + [ToOctet(a)];
    var s2 := s1 + [ToOctet(b)];
    var s3 := s2 + [ToOctet(c)];
    BigEndianPush(s, a);
    BigEndianPush(s1, b);
    BigEndianPush(s2, c);
    BigEndianPush(s3, d);
    hide BigEndian, ToOctet;
    assert s3 + [ToOctet(d)] == s + [ToOctet(a), ToOctet(b), ToOctet(c), ToOctet(d)];
  }

  lemma BigEndianOfFour(s: seq<Octet>, n: nat)
    ensures BigEndian(s + LowFour(n)) == 0x1_0000_0000 * BigEndian(s) + n % 0x1_0000_0000
  {
    hide BigEndian, ToOctet;
    FourPushes(s, n / 0x100_0000, n / 0x1_0000, n / 0x100, n);
    Horner(BigEndian(s), n);
  }

  lemma Horner(b: nat, n: nat)
    ensures 256 * (256 * (256 * (256 * b + n / 0x100_0000 % 256) + n / 0x1_0000 % 256) + n / 0x100 % 256) + n % 256
      == 0x1_0000_0000 * b + n % 0x1_0000_0000
  {
    FourDigits(n);
  }

  lemma HighAndLow(n: nat)
    requires n < TWO32 * TWO32
    ensures 0x1_0000_0000 * (0x1_0000_0000 * 0 + n / 0x1_0000_0000 % 0x1_0000_0000) + n % 0x1_0000_0000 == n
  {
  }

  lemma Be64ByFours(n: nat)
    ensures Be64(n) == [] + LowFour(n / 0x1_0000_0000) + LowFour(n)
  {
    Dividing(n);
    hide ToOctet;
  }

  /** The last eight octets of the padding spell the length in bits. */
  lemma Be64IsBigEndian(n: nat)
    requires n < TWO32 * TWO32
    ensures BigEndian(Be64(n)) == n
  {
    Be64ByFours(n);
    HighAndLow(n);
    assert BigEndian([]) == 0;
    hide BigEndian, Be64, LowFour;
    BigEndianOfFour([], n / 0x1_0000_0000);
    BigEndianOfFour([] + LowFour(n / 0x1_0000_0000), n);
  }

  lemma FourDigits(n: nat)
    ensures n % 0x1_0000_0000 == 0x100_0000 * (n / 0x100_0000 % 256) + 0x1_0000 * (n / 0x1_0000 % 256)
      + 0x100 * (n / 0x100 % 256) + n % 256
  {
    DropOctets(n);
    var n1, n2, n3, n4 := n / 0x100, n / 0x1_0000, n / 0x100_0000, n / 0x1_0000_0000;
    assert n == 256 * n1 + n % 256 && n1 == 256 * n2 + n1 % 256;
    assert n2 == 256 * n3 + n2 % 256 && n3 == 256 * n4 + n3 % 256;
    assert n == 0x1_0000_0000 * n4 + n % 0x1_0000_0000;
  }

  lemma Dividing(n: nat)
    ensures var m := n / 0x1_0000_0000;
      m / 0x100 == n / 0x100_0000_0000 && m / 0x1_0000 == n / 0x1_0000_0000_0000
      && m / 0x100_0000 == n / 0x100_0000_0000_0000
  {
  }

  // ----- keys -----

  /** A key of exactly one block is used as it is, a longer one through its digest. */
  lemma HmacKeys(key: seq<Octet>, text: seq<Octet>)
    ensures |key| == BLOCK ==> Hmac(key, text) == Sha256(XorEach(key, 0x5c) + Sha256(XorEach(key, 0x36) + text))
    ensures |key| > BLOCK ==> Hmac(key, text) == Hmac(Sha256(key), text)
  {
    hide Sha256, XorEach;
    if |key| == BLOCK {
      assert BlockKey(key) == key;
    } else if |key| > BLOCK {
      assert BlockKey(Sha256(key)) == BlockKey(key);
    }
  }

  /** Zeros at the end of a short key make no difference. */
  lemma HmacKeyFilled(key: seq<Octet>, n: nat, text: seq<Octet>)
    requires |key| + n <= BLOCK
    ensures Hmac(key + Zeros(n), text) == Hmac(key, text)
  {
    hide Sha256, XorEach;
    assert BlockKey(key + Zeros(n)) == BlockKey(key);
  }
}
