/** The one block of the message "abc" (appendix B.1 of FIPS 180-2). */
module AbcBlock {
  import opened Fips180
  import opened Sha256ByRows

  function W0(): Row { Row(0x61626380, 0x00000000, 0x00000000, 0x00000000,
                           0x00000000, 0x00000000, 0x00000000, 0x00000000) }
  function W1(): Row { Row(0x00000000, 0x00000000, 0x00000000, 0x00000000,
                           0x00000000, 0x00000000, 0x00000000, 0x00000018) }
  function W2(): Row { Row(0x61626380, 0x000f0000, 0x7da86405, 0x600003c6,
                           0x3e9d7b78, 0x0183fc00, 0x12dcbfdb, 0xe2e2c38e) }
  function W3(): Row { Row(0xc8215c1a, 0xb73679a2, 0xe5bc3909, 0x32663c5b,
                           0x9d209d67, 0xec8726cb, 0x702138a4, 0xd3b7973b) }
  function W4(): Row { Row(0x93f5997f, 0x3b68ba73, 0xaff4ffc1, 0xf10a5c62,
                           0x0a8b3996, 0x72af830a, 0x9409e33e, 0x24641522) }
  function W5(): Row { Row(0x9f47bf94, 0xf0a64f5a, 0x3e246a79, 0x27333ba3,
                           0x0c4763f2, 0x840abf27, 0x7a290d5d, 0x065c43da) }
  function W6(): Row { Row(0xfb3e89cb, 0xcc7617db, 0xb9e66c34, 0xa9993667,
                           0x84badedd, 0xc21462bc, 0x1487472c, 0xb20f7a99) }
  function W7(): Row { Row(0xef57b9cd, 0xebe6b238, 0x9fe3095e, 0x78bc8d4b,
                           0xa43fcf15, 0x668b2ff8, 0xeeaba2cc, 0x12b1edeb) }

  function R0(): Regs { Regs(0x6a09e667, 0xbb67ae85, 0x3c6ef372, 0xa54ff53a,
                             0x510e527f, 0x9b05688c, 0x1f83d9ab, 0x5be0cd19) }
  function R1(): Regs { Regs(0x85a07b5f, 0xe5030380, 0x2b4209f5, 0x04409a6a,
                             0x0c657a79, 0x9b27a401, 0x714260ad, 0x43ada245) }
  function R2(): Regs { Regs(0xb0fa238e, 0xc0645fde, 0xd932eb16, 0x87912990,
                             0x07590dcd, 0x0b92f20c, 0x745a48de, 0x1e578218) }
  function R3(): Regs { Regs(0xc5d53d8d, 0xa7a3623f, 0xc2606d6d, 0x9dc68b63,
                             0xaa47c347, 0x49f5114a, 0xe1257970, 0x8ada8930) }
  function R4(): Regs { Regs(0x73b33bf5, 0xea992a22, 0xa0060b30, 0x363482c9,
                             0xba591112, 0x0109ab3a, 0xade79437, 0x6112a3b7) }
  function R5(): Regs { Regs(0x79ea687a, 0x6dc57a8a, 0x34df1604, 0x41a65cb1,
                             0x1efbc0a0, 0xf0781bc8, 0xa507a53d, 0x0772a26b) }
  function R6(): Regs { Regs(0x4172328d, 0xa14c14b0, 0x72ab4b91, 0x26628815,
                             0xfecf0bc6, 0xd57b94a9, 0xb7755da1, 0xa80f11f0) }
  function R7(): Regs { Regs(0x38cc9913, 0x3ec45cdb, 0xf5702fdb, 0x101fd28f,
                             0x54cb266b, 0xe50e1b4f, 0x9f4787c3, 0x529e7d00) }
  function R8(): Regs { Regs(0x506e3058, 0xd39a2165, 0x04d24d6c, 0xb85e2ce9,
                             0x5ef50f24, 0xfb121210, 0x948d25b6, 0x961f4894) }

  /** The hash value after the block. */
  function H(): Regs { Regs(0xba7816bf, 0x8f01cfea, 0x414140de, 0x5dae2223,
                            0xb00361a3, 0x96177a9c, 0xb410ff61, 0xf20015ad) }

  lemma Schedule0()
    ensures NextRow(W0(), W1()) == W2() && NextRow(W1(), W2()) == W3() && NextRow(W2(), W3()) == W4()
  {
  }

  lemma Schedule1()
    ensures NextRow(W3(), W4()) == W5() && NextRow(W4(), W5()) == W6() && NextRow(W5(), W6()) == W7()
  {
  }

  lemma Rounds0() ensures EightRounds(R0(), K0(), W0()) == R1() {}
  lemma Rounds1() ensures EightRounds(R1(), K1(), W1()) == R2() {}
  lemma Rounds2() ensures EightRounds(R2(), K2(), W2()) == R3() {}
  lemma Rounds3() ensures EightRounds(R3(), K3(), W3()) == R4() {}
  lemma Rounds4() ensures EightRounds(R4(), K4(), W4()) == R5() {}
  lemma Rounds5() ensures EightRounds(R5(), K5(), W5()) == R6() {}
  lemma Rounds6() ensures EightRounds(R6(), K6(), W6()) == R7() {}
  lemma Rounds7() ensures EightRounds(R7(), K7(), W7()) == R8() {}
  lemma Sum() ensures AddRegs(R0(), R8()) == H() {}

  lemma Hashed()
    ensures Compress(FromRegs(R0()), RowWords(W0()) + RowWords(W1())) == FromRegs(H())
  {
    hide NextRow, EightRounds, Compress, FromRegs, RowWords, AddRegs, H,
      W0, W1, W2, W3, W4, W5, W6, W7, R0, R1, R2, R3, R4, R5, R6, R7, R8,
      K0, K1, K2, K3, K4, K5, K6, K7;
    Schedule0();
    Schedule1();
    Rounds0();
    Rounds1();
    Rounds2();
    Rounds3();
    Rounds4();
    Rounds5();
    Rounds6();
    Rounds7();
    Sum();
    Compressed(W0(), W1(), W2(), W3(), W4(), W5(), W6(), W7(),
               R0(), R1(), R2(), R3(), R4(), R5(), R6(), R7(), R8());
  }
}

/** The inner pad of the key of test case 1 in section 4.2 of RFC 4231. */
module InnerKeyBlock {
  import opened Fips180
  import opened Sha256ByRows

  function W0(): Row { Row(0x3d3d3d3d, 0x3d3d3d3d, 0x3d3d3d3d, 0x3d3d3d3d,
                           0x3d3d3d3d, 0x36363636, 0x36363636, 0x36363636) }
  function W1(): Row { Row(0x36363636, 0x36363636, 0x36363636, 0x36363636,
                           0x36363636, 0x36363636, 0x36363636, 0x36363636) }
  function W2(): Row { Row(0x83d65655, 0x83d65655, 0x87c68a09, 0x87c68a09,
                           0xeefe9d53, 0xe7f7964c, 0xf0cbc89a, 0xdb09c692) }
  function W3(): Row { Row(0x3e95c840, 0x80d1dbfa, 0x024ba550, 0xe2fe1eb4,
                           0xab57872e, 0xdadd789e, 0x2bbf790f, 0xb71e0674) }
  function W4(): Row { Row(0x873cd858, 0xeb704436, 0x034082b0, 0x7b1c5b2d,
                           0x7b8d0bf1, 0x94833806, 0x1bf5dea0, 0x532cf446) }
  function W5(): Row { Row(0x126e3965, 0xb1eb6aea, 0x4b39b8c5, 0xe08793f5,
                           0xa40d251e, 0xf7f32031, 0x3302c428, 0x55af3d1c) }
  function W6(): Row { Row(0xd57b7564, 0xf0a55a2b, 0xfb52b288, 0xd51114e5,
                           0x5464a6e1, 0xa5426731, 0xf53108fe, 0xee307fff) }
  function W7(): Row { Row(0xc25593fe, 0xcb39bada, 0xaf277f26, 0x7f7f4555,
                           0x4ec9d7b1, 0x1e504a7d, 0xefca2da1, 0x52d83722) }

  function R0(): Regs { Regs(0x6a09e667, 0xbb67ae85, 0x3c6ef372, 0xa54ff53a,
                             0x510e527f, 0x9b05688c, 0x1f83d9ab, 0x5be0cd19) }
  function R1(): Regs { Regs(0x1a5a8c04, 0xc6a488e5, 0xb8400306, 0xba938604,
                             0xcbc23cd3, 0x2f80792b, 0x72a6dc02, 0x3e1a087f) }
  function R2(): Regs { Regs(0x3cb5eea0, 0xe7bbdb4a, 0x1c4ee0bb, 0x30cf6137,
                             0xcd45c4de, 0x9ef1aa08, 0x5e2bc040, 0x0a66e9a1) }
  function R3(): Regs { Regs(0x34bae976, 0xc6904c45, 0x11fed411, 0xbc841005,
                             0x5bf4daa8, 0x99cee3c5, 0x63ee67e3, 0x61ff708f) }
  function R4(): Regs { Regs(0x89c99f7f, 0x421f94e7, 0x94973530, 0xd7f8f942,
                             0x5860fd1c, 0xf416698f, 0x47b3e625, 0x8c3269bc) }
  function R5(): Regs { Regs(0xc1370725, 0x4d57f16b, 0xb48302f8, 0xc0de7d8c,
                             0x814b8026, 0x91d64179, 0x6d479276, 0xdc41e25e) }
  function R6(): Regs { Regs(0x6f531cbc, 0xd0d0b35f, 0xf906089e, 0x335edc8b,
                             0x1ea9ce99, 0x59f06a6b, 0x41c1983c, 0xa7ee4566) }
  function R7(): Regs { Regs(0xe51ef32d, 0xecef4474, 0xb989964d, 0xda50cec8,
                             0xdc0fa4f8, 0x5d840fd2, 0xf9943f4f, 0xb0eafb95) }
  function R8(): Regs { Regs(0xc1a8319d, 0x6851ad74, 0x7879321a, 0x5565f11a,
                             0xc0e43f9f, 0xb4e61062, 0x790d0c53, 0x08d6b31d) }

  /** The hash value after the block. */
  function H(): Regs { Regs(0x2bb21804, 0x23b95bf9, 0xb4e8258c, 0xfab5e654,
                            0x11f2921e, 0x4feb78ee, 0x9890e5fe, 0x64b78036) }

  lemma Schedule0()
    ensures NextRow(W0(), W1()) == W2() && NextRow(W1(), W2()) == W3() && NextRow(W2(), W3()) == W4()
  {
  }

  lemma Schedule1()
    ensures NextRow(W3(), W4()) == W5() && NextRow(W4(), W5()) == W6() && NextRow(W5(), W6()) == W7()
  {
  }

  lemma Rounds0() ensures EightRounds(R0(), K0(), W0()) == R1() {}
  lemma Rounds1() ensures EightRounds(R1(), K1(), W1()) == R2() {}
  lemma Rounds2() ensures EightRounds(R2(), K2(), W2()) == R3() {}
  lemma Rounds3() ensures EightRounds(R3(), K3(), W3()) == R4() {}
  lemma Rounds4() ensures EightRounds(R4(), K4(), W4()) == R5() {}
  lemma Rounds5() ensures EightRounds(R5(), K5(), W5()) == R6() {}
  lemma Rounds6() ensures EightRounds(R6(), K6(), W6()) == R7() {}
  lemma Rounds7() ensures EightRounds(R7(), K7(), W7()) == R8() {}
  lemma Sum() ensures AddRegs(R0(), R8()) == H() {}

  lemma Hashed()
    ensures Compress(FromRegs(R0()), RowWords(W0()) + RowWords(W1())) == FromRegs(H())
  {
    hide NextRow, EightRounds, Compress, FromRegs, RowWords, AddRegs, H,
      W0, W1, W2, W3, W4, W5, W6, W7, R0, R1, R2, R3, R4, R5, R6, R7, R8,
      K0, K1, K2, K3, K4, K5, K6, K7;
    Schedule0();
    Schedule1();
    Rounds0();
    Rounds1();
    Rounds2();
    Rounds3();
    Rounds4();
    Rounds5();
    Rounds6();
    Rounds7();
    Sum();
    Compressed(W0(), W1(), W2(), W3(), W4(), W5(), W6(), W7(),
               R0(), R1(), R2(), R3(), R4(), R5(), R6(), R7(), R8());
  }
}

/** The text of that test case behind the inner pad. */
module InnerTextBlock {
  import opened Fips180
  import opened Sha256ByRows

  function W0(): Row { Row(0x48692054, 0x68657265, 0x80000000, 0x00000000,
                           0x00000000, 0x00000000, 0x00000000, 0x00000000) }
  function W1(): Row { Row(0x00000000, 0x00000000, 0x00000000, 0x00000000,
                           0x00000000, 0x00000000, 0x00000000, 0x00000240) }
  function W2(): Row { Row(0xe3ae5f05, 0x7acd9265, 0x645aa635, 0x7b60a15b,
                           0x07c5080f, 0x44980af4, 0x25079498, 0xe7e3ebe2) }
  function W3(): Row { Row(0xb3a3ea2b, 0xed0f7e2c, 0x03dce8ba, 0x58adb108,
                           0x2de2c1a3, 0x93baa0c7, 0xa162782b, 0x3877b122) }
  function W4(): Row { Row(0xe52c510f, 0x7d347a94, 0xf173a815, 0xb8404a00,
                           0x1f5ae3c0, 0xe435d354, 0xaeea240b, 0xdca3f752) }
  function W5(): Row { Row(0x2378475a, 0xb249e7aa, 0x5f52b9e4, 0x3aa488ab,
                           0x5353cb9b, 0xf5577ba3, 0xc9e71e09, 0xc5b4f623) }
  function W6(): Row { Row(0x3e67d5ab, 0xa23619d7, 0x4180398e, 0x16b3acdf,
                           0xf234d122, 0xdd913234, 0xab2252c2, 0x7c76ceee) }
  function W7(): Row { Row(0x63892d3a, 0x1fadf2d9, 0x9c341d6e, 0x4233ab5c,
                           0x45cb4b40, 0x0e7c539e, 0x75ec4bca, 0x71d877c9) }

  function R0(): Regs { Regs(0x2bb21804, 0x23b95bf9, 0xb4e8258c, 0xfab5e654,
                             0x11f2921e, 0x4feb78ee, 0x9890e5fe, 0x64b78036) }
  function R1(): Regs { Regs(0xce3494b4, 0x85c6a7f0, 0xd66e4864, 0xeba36673,
                             0x54ab0ff0, 0x3beff05c, 0x5c076c2b, 0x4936b04e) }
  function R2(): Regs { Regs(0xb8ccba9a, 0xd06247ca, 0x30dd05d1, 0x75f5ba65,
                             0xcc5b50cf, 0xbdcd8bb1, 0x324501c3, 0x85af8ec4) }
  function R3(): Regs { Regs(0xece3691c, 0xba3bb3fe, 0x6ae0e6ed, 0xdd265904,
                             0x9b8f2382, 0xd9187745, 0x87a4ec80, 0x8dc77dec) }
  function R4(): Regs { Regs(0x26a1971a, 0x40fa9b72, 0x94aceed1, 0xd4ad0e4c,
                             0xe1bf8d0f, 0x6ff1d8be, 0x9a61b911, 0x4db711e5) }
  function R5(): Regs { Regs(0xc8e29587, 0xa5b00ab4, 0x76d1ec55, 0x34157628,
                             0xb3d345df, 0xcdfabbfc, 0xf8d6d122, 0x1d6eb0f8) }
  function R6(): Regs { Regs(0x182dee89, 0xf1eab7ef, 0x011929a4, 0x17abe18a,
                             0x9c68e53c, 0x2bda9036, 0xacb0d543, 0xfa181fba) }
  function R7(): Regs { Regs(0x04e3df1d, 0x628192be, 0x2f56f280, 0x8b7ca9b9,
                             0x99dff112, 0xfa7bfbd7, 0xada69acc, 0xa25a12ea) }
  function R8(): Regs { Regs(0x66f93596, 0xfb820559, 0x07c1b812, 0x6ef95da0,
                             0xbca75211, 0x84f7970b, 0xda339a27, 0x55424fb9) }

  /** The hash value after the block. */
  function H(): Regs { Regs(0x92ab4d9a, 0x1f3b6152, 0xbca9dd9e, 0x69af43f4,
                            0xce99e42f, 0xd4e30ff9, 0x72c48025, 0xb9f9cfef) }

  lemma Schedule0()
    ensures NextRow(W0(), W1()) == W2() && NextRow(W1(), W2()) == W3() && NextRow(W2(), W3()) == W4()
  {
  }

  lemma Schedule1()
    ensures NextRow(W3(), W4()) == W5() && NextRow(W4(), W5()) == W6() && NextRow(W5(), W6()) == W7()
  {
  }

  lemma Rounds0() ensures EightRounds(R0(), K0(), W0()) == R1() {}
  lemma Rounds1() ensures EightRounds(R1(), K1(), W1()) == R2() {}
  lemma Rounds2() ensures EightRounds(R2(), K2(), W2()) == R3() {}
  lemma Rounds3() ensures EightRounds(R3(), K3(), W3()) == R4() {}
  lemma Rounds4() ensures EightRounds(R4(), K4(), W4()) == R5() {}
  lemma Rounds5() ensures EightRounds(R5(), K5(), W5()) == R6() {}
  lemma Rounds6() ensures EightRounds(R6(), K6(), W6()) == R7() {}
  lemma Rounds7() ensures EightRounds(R7(), K7(), W7()) == R8() {}
  lemma Sum() ensures AddRegs(R0(), R8()) == H() {}

  lemma Hashed()
    ensures Compress(FromRegs(R0()), RowWords(W0()) + RowWords(W1())) == FromRegs(H())
  {
    hide NextRow, EightRounds, Compress, FromRegs, RowWords, AddRegs, H,
      W0, W1, W2, W3, W4, W5, W6, W7, R0, R1, R2, R3, R4, R5, R6, R7, R8,
      K0, K1, K2, K3, K4, K5, K6, K7;
    Schedule0();
    Schedule1();
    Rounds0();
    Rounds1();
    Rounds2();
    Rounds3();
    Rounds4();
    Rounds5();
    Rounds6();
    Rounds7();
    Sum();
    Compressed(W0(), W1(), W2(), W3(), W4(), W5(), W6(), W7(),
               R0(), R1(), R2(), R3(), R4(), R5(), R6(), R7(), R8());
  }
}

/** The outer pad of the key. */
module OuterKeyBlock {
  import opened Fips180
  import opened Sha256ByRows

  function W0(): Row { Row(0x57575757, 0x57575757, 0x57575757, 0x57575757,
                           0x57575757, 0x5c5c5c5c, 0x5c5c5c5c, 0x5c5c5c5c) }
  function W1(): Row { Row(0x5c5c5c5c, 0x5c5c5c5c, 0x5c5c5c5c, 0x5c5c5c5c,
                           0x5c5c5c5c, 0x5c5c5c5c, 0x5c5c5c5c, 0x5c5c5c5c) }
  function W2(): Row { Row(0xcaf7f7f6, 0xcaf7f7f6, 0x2a7c471c, 0x2a7c471c,
                           0x033ee737, 0x0843ec3c, 0x0c5a8b1d, 0x57140e48) }
  function W3(): Row { Row(0xe066a97a, 0xb1f5ac07, 0xaca6fd31, 0x676ebb66,
                           0xa9da3734, 0x97a13091, 0xb4eb4623, 0x0478baea) }
  function W4(): Row { Row(0x521cdde2, 0xeea4ccb6, 0xb42161ee, 0xabf8e3ec,
                           0xb9df94e3, 0xc425187d, 0xe375de48, 0x1bc3e05e) }
  function W5(): Row { Row(0x963dd978, 0xbbbb45cb, 0x1f514b8d, 0xdd666dc2,
                           0x78af495c, 0xf701cecf, 0x18882647, 0x72d98ff5) }
  function W6(): Row { Row(0x68e9dcaf, 0x97a67d8d, 0x5c33fa12, 0x4b6b61c2,
                           0xd8516549, 0xb3b35d6c, 0x3be3aef3, 0xdf9ac597) }
  function W7(): Row { Row(0x22004a47, 0x9d75fe9e, 0x9c8758db, 0x5c273d08,
                           0x66720a51, 0x30c97cc0, 0xc3e1cdaa, 0x4bb53874) }

  function R0(): Regs { Regs(0x6a09e667, 0xbb67ae85, 0x3c6ef372, 0xa54ff53a,
                             0x510e527f, 0x9b05688c, 0x1f83d9ab, 0x5be0cd19) }
  function R1(): Regs { Regs(0x1a2c02e9, 0xf046b3db, 0xc6c531ff, 0xd8488af1,
                             0x8e33ded1, 0x6c172a91, 0x1720b67c, 0x9fdbd50a) }
  function R2(): Regs { Regs(0x40aad1e6, 0xcea50343, 0xdea615b5, 0x2201a121,
                             0xdff2975a, 0xb43cd567, 0x0b0403e6, 0x4d4ee4b6) }
  function R3(): Regs { Regs(0x5154ff48, 0x6fe3e2ce, 0xa5b08b89, 0x3adb583f,
                             0xeb7c381e, 0xe346ff5d, 0xd69e5998, 0xdb86909e) }
  function R4(): Regs { Regs(0xc07d698b, 0x2ad89477, 0x927e71d9, 0xb849e8c8,
                             0x03d7688d, 0x7863bc42, 0xd56ea8e1, 0xa6f942f1) }
  function R5(): Regs { Regs(0x0129c145, 0x5b9fffa5, 0xe1a9212c, 0x7850b66f,
                             0x86fb4e59, 0xac5e6f16, 0x0b4479d3, 0x55a29690) }
  function R6(): Regs { Regs(0x47715b1e, 0xf1fc8092, 0x93bd252d, 0x52d78031,
                             0x4be4311d, 0xb910d5c2, 0xad26734c, 0xc1e22213) }
  function R7(): Regs { Regs(0x0409b203, 0xe3d281c0, 0x79226613, 0x93738c5d,
                             0x0847ac5d, 0x1d4bdc89, 0x2a3a92ff, 0x8eb3b7b9) }
  function R8(): Regs { Regs(0xbddd8d38, 0x1dee76fe, 0x1a677370, 0xba3118ae,
                             0x9b4ffd0b, 0xba37e72c, 0x1d7b470f, 0xb4427e27) }

  /** The hash value after the block. */
  function H(): Regs { Regs(0x27e7739f, 0xd9562583, 0x56d666e2, 0x5f810de8,
                            0xec5e4f8a, 0x553d4fb8, 0x3cff20ba, 0x10234b40) }

  lemma Schedule0()
    ensures NextRow(W0(), W1()) == W2() && NextRow(W1(), W2()) == W3() && NextRow(W2(), W3()) == W4()
  {
  }

  lemma Schedule1()
    ensures NextRow(W3(), W4()) == W5() && NextRow(W4(), W5()) == W6() && NextRow(W5(), W6()) == W7()
  {
  }

  lemma Rounds0() ensures EightRounds(R0(), K0(), W0()) == R1() {}
  lemma Rounds1() ensures EightRounds(R1(), K1(), W1()) == R2() {}
  lemma Rounds2() ensures EightRounds(R2(), K2(), W2()) == R3() {}
  lemma Rounds3() ensures EightRounds(R3(), K3(), W3()) == R4() {}
  lemma Rounds4() ensures EightRounds(R4(), K4(), W4()) == R5() {}
  lemma Rounds5() ensures EightRounds(R5(), K5(), W5()) == R6() {}
  lemma Rounds6() ensures EightRounds(R6(), K6(), W6()) == R7() {}
  lemma Rounds7() ensures EightRounds(R7(), K7(), W7()) == R8() {}
  lemma Sum() ensures AddRegs(R0(), R8()) == H() {}

  lemma Hashed()
    ensures Compress(FromRegs(R0()), RowWords(W0()) + RowWords(W1())) == FromRegs(H())
  {
    hide NextRow, EightRounds, Compress, FromRegs, RowWords, AddRegs, H,
      W0, W1, W2, W3, W4, W5, W6, W7, R0, R1, R2, R3, R4, R5, R6, R7, R8,
      K0, K1, K2, K3, K4, K5, K6, K7;
    Schedule0();
    Schedule1();
    Rounds0();
    Rounds1();
    Rounds2();
    Rounds3();
    Rounds4();
    Rounds5();
    Rounds6();
    Rounds7();
    Sum();
    Compressed(W0(), W1(), W2(), W3(), W4(), W5(), W6(), W7(),
               R0(), R1(), R2(), R3(), R4(), R5(), R6(), R7(), R8());
  }
}

/** The inner digest behind the outer pad. */
module OuterDigestBlock {
  import opened Fips180
  import opened Sha256ByRows

  function W0(): Row { Row(0x92ab4d9a, 0x1f3b6152, 0xbca9dd9e, 0x69af43f4,
                           0xce99e42f, 0xd4e30ff9, 0x72c48025, 0xb9f9cfef) }
  function W1(): Row { Row(0x80000000, 0x00000000, 0x00000000, 0x00000000,
                           0x00000000, 0x00000000, 0x00000000, 0x00000300) }
  function W2(): Row { Row(0x1238eac0, 0x7ea72874, 0x5a020f91, 0x1a205a2c,
                           0x3f91bdc9, 0x5fec5bf0, 0x17ce0396, 0x83c4b9cc) }
  function W3(): Row { Row(0xc0636312, 0x26013045, 0xf7fb7b11, 0xfdb57555,
                           0x32c397cc, 0x2c0d2fc7, 0x3d97ea0e, 0xab473ee1) }
  function W4(): Row { Row(0x6db88c7f, 0x9938e7f6, 0xfd5e07a7, 0xb7071ea0,
                           0x2c758847, 0xb861ac28, 0xdf41f008, 0xba84b45e) }
  function W5(): Row { Row(0xe26c5d24, 0xd3be4795, 0x3d29cb4a, 0x9106b33b,
                           0x8810cbdb, 0x7c7878ce, 0x8e575314, 0x918947ab) }
  function W6(): Row { Row(0x4d2ae2c8, 0x33200f90, 0x4bb9e092, 0x2f165377,
                           0xa2ae5cad, 0xa0ec416a, 0xdde9378a, 0xf3204226) }
  function W7(): Row { Row(0x72c57c4a, 0x29f17dc0, 0x47bd2466, 0x59ec5869,
                           0xecef729b, 0xeda51486, 0xed962388, 0x4ec4a0ee) }

  function R0(): Regs { Regs(0x27e7739f, 0xd9562583, 0x56d666e2, 0x5f810de8,
                             0xec5e4f8a, 0x553d4fb8, 0x3cff20ba, 0x10234b40) }
  function R1(): Regs { Regs(0xa9e77929, 0xf1f1cf0e, 0xff3144eb, 0x43f9fb8c,
                             0x8c9a1d72, 0x7abc3f46, 0x576210a0, 0xf38ef73a) }
  function R2(): Regs { Regs(0x4bf55010, 0x0bbc9099, 0xb8dc0fcd, 0x6239a99b,
                             0x5a1511db, 0x5dcafdde, 0x731d63e2, 0xf833b364) }
  function R3(): Regs { Regs(0xc0468ae6, 0x2dfd894e, 0x373165dc, 0x89446b43,
                             0x6b8a9d06, 0xb61cf65b, 0xcb064053, 0xbf56ffeb) }
  function R4(): Regs { Regs(0x93a56a9d, 0x4e89e357, 0x78df84e4, 0x7270c6b6,
                             0xb70ef198, 0xfc163cf1, 0x3e227000, 0x3f694601) }
  function R5(): Regs { Regs(0x3e1e0532, 0x9c15c962, 0xd5684c51, 0x8dfc637e,
                             0xc56e47b4, 0x020a2fdd, 0xca03e83d, 0x7c61d0da) }
  function R6(): Regs { Regs(0xf7f803da, 0x4679edd7, 0x2843e607, 0x6e5caa92,
                             0x31e65d4a, 0x58cc4ed9, 0x0ec8a69d, 0x85d7f703) }
  function R7(): Regs { Regs(0x9cd75623, 0xd97fbff0, 0x6385dcaf, 0x8777852f,
                             0xba02d93c, 0x537426f8, 0xe5116204, 0x1de2f6e3) }
  function R8(): Regs { Regs(0x884cd8c2, 0xff8512d0, 0x05d248ec, 0x4f8ae343,
                             0x9bbf7276, 0x7445edef, 0xe9ea16b2, 0x1e0f84b7) }

  /** The hash value after the block. */
  function H(): Regs { Regs(0xb0344c61, 0xd8db3853, 0x5ca8afce, 0xaf0bf12b,
                            0x881dc200, 0xc9833da7, 0x26e9376c, 0x2e32cff7) }

  lemma Schedule0()
    ensures NextRow(W0(), W1()) == W2() && NextRow(W1(), W2()) == W3() && NextRow(W2(), W3()) == W4()
  {
  }

  lemma Schedule1()
    ensures NextRow(W3(), W4()) == W5() && NextRow(W4(), W5()) == W6() && NextRow(W5(), W6()) == W7()
  {
  }

  lemma Rounds0() ensures EightRounds(R0(), K0(), W0()) == R1() {}
  lemma Rounds1() ensures EightRounds(R1(), K1(), W1()) == R2() {}
  lemma Rounds2() ensures EightRounds(R2(), K2(), W2()) == R3() {}
  lemma Rounds3() ensures EightRounds(R3(), K3(), W3()) == R4() {}
  lemma Rounds4() ensures EightRounds(R4(), K4(), W4()) == R5() {}
  lemma Rounds5() ensures EightRounds(R5(), K5(), W5()) == R6() {}
  lemma Rounds6() ensures EightRounds(R6(), K6(), W6()) == R7() {}
  lemma Rounds7() ensures EightRounds(R7(), K7(), W7()) == R8() {}
  lemma Sum() ensures AddRegs(R0(), R8()) == H() {}

  lemma Hashed()
    ensures Compress(FromRegs(R0()), RowWords(W0()) + RowWords(W1())) == FromRegs(H())
  {
    hide NextRow, EightRounds, Compress, FromRegs, RowWords, AddRegs, H,
      W0, W1, W2, W3, W4, W5, W6, W7, R0, R1, R2, R3, R4, R5, R6, R7, R8,
      K0, K1, K2, K3, K4, K5, K6, K7;
    Schedule0();
    Schedule1();
    Rounds0();
    Rounds1();
    Rounds2();
    Rounds3();
    Rounds4();
    Rounds5();
    Rounds6();
    Rounds7();
    Sum();
    Compressed(W0(), W1(), W2(), W3(), W4(), W5(), W6(), W7(),
               R0(), R1(), R2(), R3(), R4(), R5(), R6(), R7(), R8());
  }
}

/** What SHA-256 and HMAC-SHA-256 give on the examples of their standards. */
module Sha256Examples {
  import opened Fips180
  import opened Cryptosuite
  import opened Sha256ByRows
  import AbcBlock
  import InnerKeyBlock
  import InnerTextBlock
  import OuterKeyBlock
  import OuterDigestBlock

  const START := Regs(0x6a09e667, 0xbb67ae85, 0x3c6ef372, 0xa54ff53a, 0x510e527f, 0x9b05688c, 0x1f83d9ab, 0x5be0cd19)

  lemma StartIs() ensures FromRegs(START) == H0 {}

  // ----- the message "abc" -----

  const ABC: seq<Octet> := [0x61, 0x62, 0x63]

  lemma AbcPadded()
    ensures Pad(ABC) == Block(Row(0x61626380, 0, 0, 0, 0, 0, 0, 0), Row(0, 0, 0, 0, 0, 0, 0, 0x18))
  {
    hide RowOctets, Block;
    BlockParts(Row(0x61626380, 0, 0, 0, 0, 0, 0, 0), Row(0, 0, 0, 0, 0, 0, 0, 0x18));
    RowWithZeros(0x61626380, 0);
    RowWithZeros(0, 0x18);
    FourZero();
    assert Four(0x61626380) == [0x61, 0x62, 0x63, 0x80] && Four(0x18) == [0, 0, 0, 0x18];
    Lengths();
    hide RowOctets, Four, Be64, Block;
    assert ABC + [0x80] == Four(0x61626380) && ZeroCount(3) == 52;
    Padded(Four(0x61626380), [0, 0, 0, 0], Four(0x18));
  }

  lemma Padded(first: seq<Octet>, none: seq<Octet>, last: seq<Octet>)
    requires none == [0, 0, 0, 0]
    ensures first + Zeros(24) + none + (none + Zeros(24) + last) == first + Zeros(52) + (none + last)
  {
  }

  lemma AbcHalf0()
    ensures Fours([0xba7816bf, 0x8f01cfea, 0x414140de, 0x5dae2223])
      == [0xba, 0x78, 0x16, 0xbf, 0x8f, 0x01, 0xcf, 0xea, 0x41, 0x41, 0x40, 0xde, 0x5d, 0xae, 0x22, 0x23]
  {
    assert Four(0xba7816bf) == [0xba, 0x78, 0x16, 0xbf];
    assert Four(0x8f01cfea) == [0x8f, 0x01, 0xcf, 0xea];
    assert Four(0x414140de) == [0x41, 0x41, 0x40, 0xde];
    assert Four(0x5dae2223) == [0x5d, 0xae, 0x22, 0x23];
    FourFours(0xba7816bf, 0x8f01cfea, 0x414140de, 0x5dae2223);
    hide Four, Fours;
  }

  lemma AbcHalf1()
    ensures Fours([0xb00361a3, 0x96177a9c, 0xb410ff61, 0xf20015ad])
      == [0xb0, 0x03, 0x61, 0xa3, 0x96, 0x17, 0x7a, 0x9c, 0xb4, 0x10, 0xff, 0x61, 0xf2, 0x00, 0x15, 0xad]
  {
    assert Four(0xb00361a3) == [0xb0, 0x03, 0x61, 0xa3];
    assert Four(0x96177a9c) == [0x96, 0x17, 0x7a, 0x9c];
    assert Four(0xb410ff61) == [0xb4, 0x10, 0xff, 0x61];
    assert Four(0xf20015ad) == [0xf2, 0x00, 0x15, 0xad];
    FourFours(0xb00361a3, 0x96177a9c, 0xb410ff61, 0xf20015ad);
    hide Four, Fours;
  }

  lemma AbcDigest()
    ensures Digest(AbcBlock.H()) ==
    [0xba, 0x78, 0x16, 0xbf, 0x8f, 0x01, 0xcf, 0xea, 0x41, 0x41, 0x40, 0xde, 0x5d, 0xae, 0x22, 0x23,
     0xb0, 0x03, 0x61, 0xa3, 0x96, 0x17, 0x7a, 0x9c, 0xb4, 0x10, 0xff, 0x61, 0xf2, 0x00, 0x15, 0xad]
  {
    AbcHalf0();
    AbcHalf1();
    DigestByHalves(AbcBlock.H());
    hide Digest, Fours;
  }

  /** The example of appendix B.1 of FIPS 180-2. */
  lemma Sha256OfAbc()
    ensures Sha256(ABC) ==
    [0xba, 0x78, 0x16, 0xbf, 0x8f, 0x01, 0xcf, 0xea, 0x41, 0x41, 0x40, 0xde, 0x5d, 0xae, 0x22, 0x23,
     0xb0, 0x03, 0x61, 0xa3, 0x96, 0x17, 0x7a, 0x9c, 0xb4, 0x10, 0xff, 0x61, 0xf2, 0x00, 0x15, 0xad]
  {
    AbcTables();
    StartIs();
    AbcBlock.Hashed();
    hide Compress, DigestPadded, Pad, Block, RowWords, Digest, FromRegs, AbcBlock.W0, AbcBlock.W1, AbcBlock.H,
      AbcBlock.R0;
    OneBlock(AbcBlock.W0(), AbcBlock.W1(), AbcBlock.H());
    AbcPadded();
    AbcDigest();
  }

  lemma AbcTables()
    ensures AbcBlock.R0() == START
    ensures AbcBlock.W0() == Row(0x61626380, 0, 0, 0, 0, 0, 0, 0) && AbcBlock.W1() == Row(0, 0, 0, 0, 0, 0, 0, 0x18)
  {
  }

  // ----- test case 1 of section 4.2 of RFC 4231 -----

  const KEY: seq<Octet> := seq(20, i => 0x0b)
  const TEXT: seq<Octet> := [0x48, 0x69, 0x20, 0x54, 0x68, 0x65, 0x72, 0x65]

  lemma SameOctets(w: Word, b: Octet, k: nat)
    requires Four(w) == [b, b, b, b] && k < 4
    ensures OctetOf(w, k) == b
  {
    FourAt(w, k);
    hide Four, OctetOf;
  }

  function KeyFirst(x: Word, y: Word): Row { Row(x, x, x, x, x, y, y, y) }
  function KeyLast(y: Word): Row { Row(y, y, y, y, y, y, y, y) }

  /** The key, filled up with zeros and combined with the pad. */
  lemma PaddedKey(pad: Octet, x: Word, y: Word, b: Octet)
    requires b == 0x0b ^ pad && Four(x) == [b, b, b, b] && Four(y) == [pad, pad, pad, pad]
    ensures XorEach(BlockKey(KEY), pad) == Block(KeyFirst(x, y), KeyLast(y))
  {
    XoredKey(pad, b);
    FilledBlock(x, y, b, pad);
    hide Four, Block, XorEach, BlockKey;
  }

  lemma XoredKey(pad: Octet, b: Octet)
    requires b == 0x0b ^ pad
    ensures forall i :: 0 <= i < BLOCK ==> XorEach(BlockKey(KEY), pad)[i] == if i < 20 then b else pad
  {
    KeyAt();
    ZeroXor(pad);
    XorEachAt(BlockKey(KEY), pad);
    hide XorEach, BlockKey;
  }

  lemma FilledBlock(x: Word, y: Word, b: Octet, pad: Octet)
    requires Four(x) == [b, b, b, b] && Four(y) == [pad, pad, pad, pad]
    ensures forall i :: 0 <= i < BLOCK ==> Block(KeyFirst(x, y), KeyLast(y))[i] == if i < 20 then b else pad
  {
    KeyWords(x, y);
    hide Four, Fours, OctetOf, RowWords, KeyFirst, KeyLast;
    var words := RowWords(KeyFirst(x, y)) + RowWords(KeyLast(y));
    FoursAt(words);
    forall i | 0 <= i < BLOCK
      ensures Fours(words)[i] == if i < 20 then b else pad
    {
      SameOctets(if i < 20 then x else y, if i < 20 then b else pad, i % 4);
    }
  }

  lemma KeyWords(x: Word, y: Word)
    ensures var words := RowWords(KeyFirst(x, y)) + RowWords(KeyLast(y));
      forall j :: 0 <= j < 16 ==> words[j] == if j < 5 then x else y
  {
  }

  lemma KeyAt()
    ensures forall i :: 0 <= i < BLOCK ==> BlockKey(KEY)[i] == if i < 20 then 0x0b else 0
  {
    hide Sha256;
  }

  lemma XorEachAt(s: seq<Octet>, pad: Octet)
    ensures |XorEach(s, pad)| == |s| && forall i :: 0 <= i < |s| ==> XorEach(s, pad)[i] == s[i] ^ pad
  {
  }

  lemma ZeroXor(pad: Octet) ensures 0 ^ pad == pad {}

  lemma InnerKey()
    ensures XorEach(BlockKey(KEY), 0x36) == Block(InnerKeyBlock.W0(), InnerKeyBlock.W1())
  {
    assert Four(0x3d3d3d3d) == [0x3d, 0x3d, 0x3d, 0x3d] && Four(0x36363636) == [0x36, 0x36, 0x36, 0x36];
    assert (0x0b as Octet) ^ 0x36 == 0x3d;
    hide BlockKey, XorEach, Block, Four;
    PaddedKey(0x36, 0x3d3d3d3d, 0x36363636, 0x3d);
  }

  lemma OuterKey()
    ensures XorEach(BlockKey(KEY), 0x5c) == Block(OuterKeyBlock.W0(), OuterKeyBlock.W1())
  {
    assert Four(0x57575757) == [0x57, 0x57, 0x57, 0x57] && Four(0x5c5c5c5c) == [0x5c, 0x5c, 0x5c, 0x5c];
    assert (0x0b as Octet) ^ 0x5c == 0x57;
    hide BlockKey, XorEach, Block, Four;
    PaddedKey(0x5c, 0x57575757, 0x5c5c5c5c, 0x57);
  }

  lemma RowWithThree(a: Word, b: Word, c: Word)
    ensures RowOctets(Row(a, b, c, 0, 0, 0, 0, 0)) == Four(a) + Four(b) + Four(c) + Zeros(20)
  {
    RowByFour(Row(a, b, c, 0, 0, 0, 0, 0));
    FourZero();
    hide Four, RowOctets;
  }

  /** What follows the inner pad. */
  lemma TextPadded()
    ensures TEXT + [0x80] + Zeros(47) + Be64(576) == Block(InnerTextBlock.W0(), InnerTextBlock.W1())
  {
    BlockParts(InnerTextBlock.W0(), InnerTextBlock.W1());
    RowWithThree(0x48692054, 0x68657265, 0x80000000);
    RowWithZeros(0, 0x240);
    FourZero();
    TextWords();
    hide RowOctets, Four, Be64, Block;
    PaddedText(Four(0x48692054), Four(0x68657265), Four(0x80000000), Four(0x240));
  }

  lemma TextWords()
    ensures Four(0x48692054) + Four(0x68657265) == TEXT && Four(0x80000000) == [0x80, 0, 0, 0]
    ensures Be64(576) == [0, 0, 0, 0] + Four(0x240) && Be64(768) == [0, 0, 0, 0] + Four(0x300)
  {
    TextFours();
    Lengths();
    hide Four, Be64;
  }

  lemma TextFours()
    ensures Four(0x48692054) == [0x48, 0x69, 0x20, 0x54] && Four(0x68657265) == [0x68, 0x65, 0x72, 0x65]
    ensures Four(0x80000000) == [0x80, 0, 0, 0] && Four(0x240) == [0, 0, 2, 0x40] && Four(0x300) == [0, 0, 3, 0]
  {
  }

  lemma Lengths()
    ensures Be64(24) == [0, 0, 0, 0, 0, 0, 0, 0x18]
    ensures Be64(576) == [0, 0, 0, 0, 0, 0, 2, 0x40] && Be64(768) == [0, 0, 0, 0, 0, 0, 3, 0]
  {
    SmallOctets();
    hide ToOctet;
  }

  lemma SmallOctets()
    ensures ToOctet(0) == 0 && ToOctet(2) == 2 && ToOctet(3) == 3 && ToOctet(24) == 0x18
    ensures ToOctet(576) == 0x40 && ToOctet(768) == 0
  {
  }

  lemma PaddedText(a: seq<Octet>, b: seq<Octet>, c: seq<Octet>, last: seq<Octet>)
    requires c == [0x80, 0, 0, 0]
    ensures a + b + c + Zeros(20) + ([0, 0, 0, 0] + Zeros(24) + last)
      == a + b + [0x80] + Zeros(47) + ([0, 0, 0, 0] + last)
  {
  }

  /** What follows the outer pad. */
  lemma DigestIsPadded()
    ensures Digest(InnerTextBlock.H()) + [0x80] + Zeros(23) + Be64(768)
      == Block(OuterDigestBlock.W0(), OuterDigestBlock.W1())
  {
    BlockParts(OuterDigestBlock.W0(), OuterDigestBlock.W1());
    RowWithZeros(0x80000000, 0x300);
    TextWords();
    DigestIsRow();
    hide RowOctets, Four, Be64, Block, Digest, InnerTextBlock.H;
    PaddedDigest(Digest(InnerTextBlock.H()), Four(0x80000000), Four(0x300));
  }

  lemma DigestIsRow()
    ensures Digest(InnerTextBlock.H()) == RowOctets(OuterDigestBlock.W0())
  {
    OctetsAreFours(FromRegs(InnerTextBlock.H()));
    hide Octets, Fours;
  }

  lemma PaddedDigest(d: seq<Octet>, c: seq<Octet>, last: seq<Octet>)
    requires c == [0x80, 0, 0, 0]
    ensures d + (c + Zeros(24) + last) == d + [0x80] + Zeros(23) + ([0, 0, 0, 0] + last)
  {
  }

  /** Padding a message of a block and n octets. */
  lemma PadBehind(block: seq<Octet>, m: seq<Octet>)
    requires |block| == BLOCK && |m| < 56
    ensures Pad(block + m) == block + (m + [0x80] + Zeros(55 - |m|) + Be64(8 * (BLOCK + |m|)))
  {
    hide Be64, Zeros;
    var n := |block + m|;
    assert ZeroCount(n) == 55 - |m|;
    var z, l := Zeros(55 - |m|), Be64(8 * n);
    assert block + m + [0x80] + z + l == block + (m + [0x80] + z + l);
  }

  lemma InnerHash()
    ensures Sha256(XorEach(BlockKey(KEY), 0x36) + TEXT) == Digest(InnerTextBlock.H())
  {
    StartIs();
    InnerTables();
    InnerKey();
    InnerKeyBlock.Hashed();
    InnerTextBlock.Hashed();
    hide BlockKey, XorEach, Compress, DigestPadded, Pad, Block, RowWords, Digest, FromRegs, InnerKeyBlock.W0,
      InnerKeyBlock.W1, InnerKeyBlock.H, InnerKeyBlock.R0, InnerTextBlock.W0, InnerTextBlock.W1, InnerTextBlock.H,
      InnerTextBlock.R0, Zeros, Be64;
    TwoBlocks(InnerKeyBlock.W0(), InnerKeyBlock.W1(), InnerKeyBlock.H(), InnerTextBlock.W0(), InnerTextBlock.W1(),
              InnerTextBlock.H());
    PadBehind(Block(InnerKeyBlock.W0(), InnerKeyBlock.W1()), TEXT);
    TextPadded();
  }

  lemma InnerTables()
    ensures InnerKeyBlock.R0() == START && InnerTextBlock.R0() == InnerKeyBlock.H()
    ensures OuterKeyBlock.R0() == START && OuterDigestBlock.R0() == OuterKeyBlock.H()
  {
  }

  lemma OuterHash()
    ensures Sha256(XorEach(BlockKey(KEY), 0x5c) + Digest(InnerTextBlock.H())) == Digest(OuterDigestBlock.H())
  {
    StartIs();
    InnerTables();
    OuterKey();
    OuterKeyBlock.Hashed();
    OuterDigestBlock.Hashed();
    hide BlockKey, XorEach, Compress, DigestPadded, Pad, Block, RowWords, Digest, FromRegs, OuterKeyBlock.W0,
      OuterKeyBlock.W1, OuterKeyBlock.H, OuterKeyBlock.R0, OuterDigestBlock.W0, OuterDigestBlock.W1,
      OuterDigestBlock.H, OuterDigestBlock.R0, InnerTextBlock.H, Zeros, Be64;
    TwoBlocks(OuterKeyBlock.W0(), OuterKeyBlock.W1(), OuterKeyBlock.H(), OuterDigestBlock.W0(), OuterDigestBlock.W1(),
              OuterDigestBlock.H());
    PadBehind(Block(OuterKeyBlock.W0(), OuterKeyBlock.W1()), Digest(InnerTextBlock.H()));
    DigestIsPadded();
  }

  lemma MacHalf0()
    ensures Fours([0xb0344c61, 0xd8db3853, 0x5ca8afce, 0xaf0bf12b])
      == [0xb0, 0x34, 0x4c, 0x61, 0xd8, 0xdb, 0x38, 0x53, 0x5c, 0xa8, 0xaf, 0xce, 0xaf, 0x0b, 0xf1, 0x2b]
  {
    assert Four(0xb0344c61) == [0xb0, 0x34, 0x4c, 0x61];
    assert Four(0xd8db3853) == [0xd8, 0xdb, 0x38, 0x53];
    assert Four(0x5ca8afce) == [0x5c, 0xa8, 0xaf, 0xce];
    assert Four(0xaf0bf12b) == [0xaf, 0x0b, 0xf1, 0x2b];
    FourFours(0xb0344c61, 0xd8db3853, 0x5ca8afce, 0xaf0bf12b);
    hide Four, Fours;
  }

  lemma MacHalf1()
    ensures Fours([0x881dc200, 0xc9833da7, 0x26e9376c, 0x2e32cff7])
      == [0x88, 0x1d, 0xc2, 0x00, 0xc9, 0x83, 0x3d, 0xa7, 0x26, 0xe9, 0x37, 0x6c, 0x2e, 0x32, 0xcf, 0xf7]
  {
    assert Four(0x881dc200) == [0x88, 0x1d, 0xc2, 0x00];
    assert Four(0xc9833da7) == [0xc9, 0x83, 0x3d, 0xa7];
    assert Four(0x26e9376c) == [0x26, 0xe9, 0x37, 0x6c];
    assert Four(0x2e32cff7) == [0x2e, 0x32, 0xcf, 0xf7];
    FourFours(0x881dc200, 0xc9833da7, 0x26e9376c, 0x2e32cff7);
    hide Four, Fours;
  }

  lemma MacDigest()
    ensures Digest(OuterDigestBlock.H()) ==
    [0xb0, 0x34, 0x4c, 0x61, 0xd8, 0xdb, 0x38, 0x53, 0x5c, 0xa8, 0xaf, 0xce, 0xaf, 0x0b, 0xf1, 0x2b,
     0x88, 0x1d, 0xc2, 0x00, 0xc9, 0x83, 0x3d, 0xa7, 0x26, 0xe9, 0x37, 0x6c, 0x2e, 0x32, 0xcf, 0xf7]
  {
    MacHalf0();
    MacHalf1();
    DigestByHalves(OuterDigestBlock.H());
    hide Digest, Fours;
  }

  /** The result that RFC 4231 gives. */
  lemma HmacOfHiThere()
    ensures Hmac(KEY, TEXT) ==
    [0xb0, 0x34, 0x4c, 0x61, 0xd8, 0xdb, 0x38, 0x53, 0x5c, 0xa8, 0xaf, 0xce, 0xaf, 0x0b, 0xf1, 0x2b,
     0x88, 0x1d, 0xc2, 0x00, 0xc9, 0x83, 0x3d, 0xa7, 0x26, 0xe9, 0x37, 0x6c, 0x2e, 0x32, 0xcf, 0xf7]
  {
    InnerHash();
    OuterHash();
    MacDigest();
    hide Sha256, BlockKey, XorEach, Digest;
  }
}
