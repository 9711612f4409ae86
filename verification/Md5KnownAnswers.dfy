/** Known answers: the digests of "" and "abc" of appendix A.5 of RFC 1321, step by step, and what
    the auxiliary functions do to each bit. */
module Md5KnownAnswers {
  import opened Rfc1321
  import Md5

  // Each bit of F chooses, each bit of H is a parity

  function BitOf(bits: bv32, j: bv6): bool
    requires j < 32
  {
    (bits >> j) & 1 == 1
  }

  function Bit(x: Word, j: bv6): bool
    requires j < 32
  {
    BitOf(x.bits, j)
  }

  lemma FChooses(x: Word, y: Word, z: Word, j: bv6)
    requires j < 32
    ensures Bit(F(x, y, z), j) == if Bit(x, j) then Bit(y, j) else Bit(z, j)
  {
    hide BitOf, F;
    FIs(x, y, z);
    FChoosesBits(x.bits, y.bits, z.bits, j);
  }

  lemma FIs(x: Word, y: Word, z: Word)
    ensures F(x, y, z).bits == (x.bits & y.bits) | (!x.bits & z.bits)
  {
  }

  lemma FChoosesBits(x: bv32, y: bv32, z: bv32, j: bv6)
    requires j < 32
    ensures BitOf((x & y) | (!x & z), j) == if BitOf(x, j) then BitOf(y, j) else BitOf(z, j)
  {
  }

  lemma GChooses(x: Word, y: Word, z: Word, j: bv6)
    requires j < 32
    ensures Bit(G(x, y, z), j) == if Bit(z, j) then Bit(x, j) else Bit(y, j)
  {
    hide BitOf, G;
    GIs(x, y, z);
    GChoosesBits(x.bits, y.bits, z.bits, j);
  }

  lemma GIs(x: Word, y: Word, z: Word)
    ensures G(x, y, z).bits == (x.bits & z.bits) | (y.bits & !z.bits)
  {
  }

  lemma GChoosesBits(x: bv32, y: bv32, z: bv32, j: bv6)
    requires j < 32
    ensures BitOf((x & z) | (y & !z), j) == if BitOf(z, j) then BitOf(x, j) else BitOf(y, j)
  {
  }

  lemma HIsParity(x: Word, y: Word, z: Word, j: bv6)
    requires j < 32
    ensures Bit(H(x, y, z), j) == (Bit(x, j) != (Bit(y, j) != Bit(z, j)))
  {
    hide BitOf, H;
    HIs(x, y, z);
    HIsParityBits(x.bits, y.bits, z.bits, j);
  }

  lemma HIs(x: Word, y: Word, z: Word)
    ensures H(x, y, z).bits == x.bits ^ y.bits ^ z.bits
  {
  }

  lemma HIsParityBits(x: bv32, y: bv32, z: bv32, j: bv6)
    requires j < 32
    ensures BitOf(x ^ y ^ z, j) == (BitOf(x, j) != (BitOf(y, j) != BitOf(z, j)))
  {
  }

  lemma IMixes(x: Word, y: Word, z: Word, j: bv6)
    requires j < 32
    ensures Bit(I(x, y, z), j) == (Bit(y, j) != (Bit(x, j) || !Bit(z, j)))
  {
    hide BitOf, I;
    IIs(x, y, z);
    IMixesBits(x.bits, y.bits, z.bits, j);
  }

  lemma IIs(x: Word, y: Word, z: Word)
    ensures I(x, y, z).bits == y.bits ^ (x.bits | !z.bits)
  {
  }

  lemma IMixesBits(x: bv32, y: bv32, z: bv32, j: bv6)
    requires j < 32
    ensures BitOf(y ^ (x | !z), j) == (BitOf(y, j) != (BitOf(x, j) || !BitOf(z, j)))
  {
  }

  // The table

  function W(bits: bv32): Word { Word(bits) }

  lemma Rows1()
    ensures RowAt(0) == Row(0, 7, W(0xd76aa478))
    ensures RowAt(1) == Row(1, 12, W(0xe8c7b756))
    ensures RowAt(2) == Row(2, 17, W(0x242070db))
    ensures RowAt(3) == Row(3, 22, W(0xc1bdceee))
  {
  }

  lemma Rows2()
    ensures RowAt(4) == Row(4, 7, W(0xf57c0faf))
    ensures RowAt(5) == Row(5, 12, W(0x4787c62a))
    ensures RowAt(6) == Row(6, 17, W(0xa8304613))
    ensures RowAt(7) == Row(7, 22, W(0xfd469501))
  {
  }

  lemma Rows3()
    ensures RowAt(8) == Row(8, 7, W(0x698098d8))
    ensures RowAt(9) == Row(9, 12, W(0x8b44f7af))
    ensures RowAt(10) == Row(10, 17, W(0xffff5bb1))
    ensures RowAt(11) == Row(11, 22, W(0x895cd7be))
  {
  }

  lemma Rows4()
    ensures RowAt(12) == Row(12, 7, W(0x6b901122))
    ensures RowAt(13) == Row(13, 12, W(0xfd987193))
    ensures RowAt(14) == Row(14, 17, W(0xa679438e))
    ensures RowAt(15) == Row(15, 22, W(0x49b40821))
  {
  }

  lemma Rows5()
    ensures RowAt(16) == Row(1, 5, W(0xf61e2562))
    ensures RowAt(17) == Row(6, 9, W(0xc040b340))
    ensures RowAt(18) == Row(11, 14, W(0x265e5a51))
    ensures RowAt(19) == Row(0, 20, W(0xe9b6c7aa))
  {
  }

  lemma Rows6()
    ensures RowAt(20) == Row(5, 5, W(0xd62f105d))
    ensures RowAt(21) == Row(10, 9, W(0x02441453))
    ensures RowAt(22) == Row(15, 14, W(0xd8a1e681))
    ensures RowAt(23) == Row(4, 20, W(0xe7d3fbc8))
  {
  }

  lemma Rows7()
    ensures RowAt(24) == Row(9, 5, W(0x21e1cde6))
    ensures RowAt(25) == Row(14, 9, W(0xc33707d6))
    ensures RowAt(26) == Row(3, 14, W(0xf4d50d87))
    ensures RowAt(27) == Row(8, 20, W(0x455a14ed))
  {
  }

  lemma Rows8()
    ensures RowAt(28) == Row(13, 5, W(0xa9e3e905))
    ensures RowAt(29) == Row(2, 9, W(0xfcefa3f8))
    ensures RowAt(30) == Row(7, 14, W(0x676f02d9))
    ensures RowAt(31) == Row(12, 20, W(0x8d2a4c8a))
  {
  }

  lemma Rows9()
    ensures RowAt(32) == Row(5, 4, W(0xfffa3942))
    ensures RowAt(33) == Row(8, 11, W(0x8771f681))
    ensures RowAt(34) == Row(11, 16, W(0x6d9d6122))
    ensures RowAt(35) == Row(14, 23, W(0xfde5380c))
  {
  }

  lemma Rows10()
    ensures RowAt(36) == Row(1, 4, W(0xa4beea44))
    ensures RowAt(37) == Row(4, 11, W(0x4bdecfa9))
    ensures RowAt(38) == Row(7, 16, W(0xf6bb4b60))
    ensures RowAt(39) == Row(10, 23, W(0xbebfbc70))
  {
  }

  lemma Rows11()
    ensures RowAt(40) == Row(13, 4, W(0x289b7ec6))
    ensures RowAt(41) == Row(0, 11, W(0xeaa127fa))
    ensures RowAt(42) == Row(3, 16, W(0xd4ef3085))
    ensures RowAt(43) == Row(6, 23, W(0x04881d05))
  {
  }

  lemma Rows12()
    ensures RowAt(44) == Row(9, 4, W(0xd9d4d039))
    ensures RowAt(45) == Row(12, 11, W(0xe6db99e5))
    ensures RowAt(46) == Row(15, 16, W(0x1fa27cf8))
    ensures RowAt(47) == Row(2, 23, W(0xc4ac5665))
  {
  }

  lemma Rows13()
    ensures RowAt(48) == Row(0, 6, W(0xf4292244))
    ensures RowAt(49) == Row(7, 10, W(0x432aff97))
    ensures RowAt(50) == Row(14, 15, W(0xab9423a7))
    ensures RowAt(51) == Row(5, 21, W(0xfc93a039))
  {
  }

  lemma Rows14()
    ensures RowAt(52) == Row(12, 6, W(0x655b59c3))
    ensures RowAt(53) == Row(3, 10, W(0x8f0ccc92))
    ensures RowAt(54) == Row(10, 15, W(0xffeff47d))
    ensures RowAt(55) == Row(1, 21, W(0x85845dd1))
  {
  }

  lemma Rows15()
    ensures RowAt(56) == Row(8, 6, W(0x6fa87e4f))
    ensures RowAt(57) == Row(15, 10, W(0xfe2ce6e0))
    ensures RowAt(58) == Row(6, 15, W(0xa3014314))
    ensures RowAt(59) == Row(13, 21, W(0x4e0811a1))
  {
  }

  lemma Rows16()
    ensures RowAt(60) == Row(4, 6, W(0xf7537e82))
    ensures RowAt(61) == Row(11, 10, W(0xbd3af235))
    ensures RowAt(62) == Row(2, 15, W(0x2ad7d2bb))
    ensures RowAt(63) == Row(9, 21, W(0xeb86d391))
  {
  }

  /** One step, when its row, its message word and the outcome of its operation are known. */
  lemma Next(i: nat, x: seq<Word>, r: Registers, row: Row, outcome: Word)
    requires i < 64 && |x| == 16 && RowAt(i) == row && r == Steps(i, x, INITIAL)
    requires Operation(Mix(i, r.b, r.c, r.d), r.a, r.b, x[row.k], row.t, row.s) == outcome
    ensures Steps(i + 1, x, INITIAL) == Registers(r.d, outcome, r.b, r.c)
  {
    hide RowAt, Operation, Mix;
  }

  lemma NoSteps(x: seq<Word>)
    requires |x| == 16
    ensures Steps(0, x, INITIAL) == Registers(W(0x67452301), W(0xefcdab89), W(0x98badcfe), W(0x10325476))
  {
  }

  // MD5 ("") = d41d8cd98f00b204e9800998ecf8427e

  function EmptyBlock(): (x: seq<Word>)
    ensures |x| == 16
  {
    [W(0x00000080), W(0x00000000), W(0x00000000), W(0x00000000),
     W(0x00000000), W(0x00000000), W(0x00000000), W(0x00000000),
     W(0x00000000), W(0x00000000), W(0x00000000), W(0x00000000),
     W(0x00000000), W(0x00000000), W(0x00000000), W(0x00000000)]
  }

  lemma EmptyOutcomes0()
    ensures Operation(F(W(0xefcdab89), W(0x98badcfe), W(0x10325476)), W(0x67452301), W(0xefcdab89), W(0x00000080), W(0xd76aa478), 7)
         == W(0xa5202774)
    ensures Operation(F(W(0xa5202774), W(0xefcdab89), W(0x98badcfe)), W(0x10325476), W(0xa5202774), W(0x00000000), W(0xe8c7b756), 12)
         == W(0xf59592dd)
    ensures Operation(F(W(0xf59592dd), W(0xa5202774), W(0xefcdab89)), W(0x98badcfe), W(0xf59592dd), W(0x00000000), W(0x242070db), 17)
         == W(0xe7f06b23)
    ensures Operation(F(W(0xe7f06b23), W(0xf59592dd), W(0xa5202774)), W(0xefcdab89), W(0xe7f06b23), W(0x00000000), W(0xc1bdceee), 22)
         == W(0x1b163203)
  {
  }

  lemma EmptyOutcomes4()
    ensures Operation(F(W(0x1b163203), W(0xe7f06b23), W(0xf59592dd)), W(0xa5202774), W(0x1b163203), W(0x00000000), W(0xf57c0faf), 7)
         == W(0x32033344)
    ensures Operation(F(W(0x32033344), W(0x1b163203), W(0xe7f06b23)), W(0xf59592dd), W(0x32033344), W(0x00000000), W(0x4787c62a), 12)
         == W(0x2f35d494)
    ensures Operation(F(W(0x2f35d494), W(0x32033344), W(0x1b163203)), W(0xe7f06b23), W(0x2f35d494), W(0x00000000), W(0xa8304613), 17)
         == W(0xf5b158db)
    ensures Operation(F(W(0xf5b158db), W(0x2f35d494), W(0x32033344)), W(0x1b163203), W(0xf5b158db), W(0x00000000), W(0xfd469501), 22)
         == W(0x9bc13ce9)
  {
  }

  lemma EmptyOutcomes8()
    ensures Operation(F(W(0x9bc13ce9), W(0xf5b158db), W(0x2f35d494)), W(0x32033344), W(0x9bc13ce9), W(0x00000000), W(0x698098d8), 7)
         == W(0x3893b991)
    ensures Operation(F(W(0x3893b991), W(0x9bc13ce9), W(0xf5b158db)), W(0x2f35d494), W(0x3893b991), W(0x00000000), W(0x8b44f7af), 12)
         == W(0xfce4a312)
    ensures Operation(F(W(0xfce4a312), W(0x3893b991), W(0x9bc13ce9)), W(0xf5b158db), W(0xfce4a312), W(0x00000000), W(0xffff5bb1), 17)
         == W(0xe1ef0576)
    ensures Operation(F(W(0xe1ef0576), W(0xfce4a312), W(0x3893b991)), W(0x9bc13ce9), W(0xe1ef0576), W(0x00000000), W(0x895cd7be), 22)
         == W(0x70768a29)
  {
  }

  lemma EmptyOutcomes12()
    ensures Operation(F(W(0x70768a29), W(0xe1ef0576), W(0xfce4a312)), W(0x3893b991), W(0x70768a29), W(0x00000000), W(0x6b901122), 7)
         == W(0xf56c7cf1)
    ensures Operation(F(W(0xf56c7cf1), W(0x70768a29), W(0xe1ef0576)), W(0xfce4a312), W(0xf56c7cf1), W(0x00000000), W(0xfd987193), 12)
         == W(0x374943a7)
    ensures Operation(F(W(0x374943a7), W(0xf56c7cf1), W(0x70768a29)), W(0xe1ef0576), W(0x374943a7), W(0x00000000), W(0xa679438e), 17)
         == W(0x5aa53f75)
    ensures Operation(F(W(0x5aa53f75), W(0x374943a7), W(0xf56c7cf1)), W(0x70768a29), W(0x5aa53f75), W(0x00000000), W(0x49b40821), 22)
         == W(0xd6819c6a)
  {
  }

  lemma EmptyOutcomes16()
    ensures Operation(G(W(0xd6819c6a), W(0x5aa53f75), W(0x374943a7)), W(0xf56c7cf1), W(0xd6819c6a), W(0x00000000), W(0xf61e2562), 5)
         == W(0x1c7d7513)
    ensures Operation(G(W(0x1c7d7513), W(0xd6819c6a), W(0x5aa53f75)), W(0x374943a7), W(0x1c7d7513), W(0x00000000), W(0xc040b340), 9)
         == W(0x7bd57a3a)
    ensures Operation(G(W(0x7bd57a3a), W(0x1c7d7513), W(0xd6819c6a)), W(0x5aa53f75), W(0x7bd57a3a), W(0x00000000), W(0x265e5a51), 14)
         == W(0xc095f13a)
    ensures Operation(G(W(0xc095f13a), W(0x7bd57a3a), W(0x1c7d7513)), W(0xd6819c6a), W(0xc095f13a), W(0x00000080), W(0xe9b6c7aa), 20)
         == W(0xbd782e17)
  {
  }

  lemma EmptyOutcomes20()
    ensures Operation(G(W(0xbd782e17), W(0xc095f13a), W(0x7bd57a3a)), W(0x1c7d7513), W(0xbd782e17), W(0x00000000), W(0xd62f105d), 5)
         == W(0x3d1e3e6c)
    ensures Operation(G(W(0x3d1e3e6c), W(0xbd782e17), W(0xc095f13a)), W(0x7bd57a3a), W(0x3d1e3e6c), W(0x00000000), W(0x02441453), 9)
         == W(0x68b7b3e3)
    ensures Operation(G(W(0x68b7b3e3), W(0x3d1e3e6c), W(0xbd782e17)), W(0xc095f13a), W(0x68b7b3e3), W(0x00000000), W(0xd8a1e681), 14)
         == W(0xeb41643e)
    ensures Operation(G(W(0xeb41643e), W(0x68b7b3e3), W(0x3d1e3e6c)), W(0xbd782e17), W(0xeb41643e), W(0x00000000), W(0xe7d3fbc8), 20)
         == W(0xe422531a)
  {
  }

  lemma EmptyOutcomes24()
    ensures Operation(G(W(0xe422531a), W(0xeb41643e), W(0x68b7b3e3)), W(0x3d1e3e6c), W(0xe422531a), W(0x00000000), W(0x21e1cde6), 5)
         == W(0x306ec122)
    ensures Operation(G(W(0x306ec122), W(0xe422531a), W(0xeb41643e)), W(0x68b7b3e3), W(0x306ec122), W(0x00000000), W(0xc33707d6), 9)
         == W(0xd28c77c2)
    ensures Operation(G(W(0xd28c77c2), W(0x306ec122), W(0xe422531a)), W(0xeb41643e), W(0xd28c77c2), W(0x00000000), W(0xf4d50d87), 14)
         == W(0xa3c663da)
    ensures Operation(G(W(0xa3c663da), W(0xd28c77c2), W(0x306ec122)), W(0xe422531a), W(0xa3c663da), W(0x00000000), W(0x455a14ed), 20)
         == W(0xa0572807)
  {
  }

  lemma EmptyOutcomes28()
    ensures Operation(G(W(0xa0572807), W(0xa3c663da), W(0xd28c77c2)), W(0x306ec122), W(0xa0572807), W(0x00000000), W(0xa9e3e905), 5)
         == W(0x13707036)
    ensures Operation(G(W(0x13707036), W(0xa0572807), W(0xa3c663da)), W(0xd28c77c2), W(0x13707036), W(0x00000000), W(0xfcefa3f8), 9)
         == W(0xae7813db)
    ensures Operation(G(W(0xae7813db), W(0x13707036), W(0xa0572807)), W(0xa3c663da), W(0xae7813db), W(0x00000000), W(0x676f02d9), 14)
         == W(0x1c31c384)
    ensures Operation(G(W(0x1c31c384), W(0xae7813db), W(0x13707036)), W(0xa0572807), W(0x1c31c384), W(0x00000000), W(0x8d2a4c8a), 20)
         == W(0xa2205f1f)
  {
  }

  lemma EmptyOutcomes32()
    ensures Operation(H(W(0xa2205f1f), W(0x1c31c384), W(0xae7813db)), W(0x13707036), W(0xa2205f1f), W(0x00000000), W(0xfffa3942), 4)
         == W(0xdf63eaa1)
    ensures Operation(H(W(0xdf63eaa1), W(0xa2205f1f), W(0x1c31c384)), W(0xae7813db), W(0xdf63eaa1), W(0x00000000), W(0x8771f681), 11)
         == W(0xc3689f5b)
    ensures Operation(H(W(0xc3689f5b), W(0xdf63eaa1), W(0xa2205f1f)), W(0x1c31c384), W(0xc3689f5b), W(0x00000000), W(0x6d9d6122), 16)
         == W(0x12f3e755)
    ensures Operation(H(W(0x12f3e755), W(0xc3689f5b), W(0xdf63eaa1)), W(0xa2205f1f), W(0x12f3e755), W(0x00000000), W(0xfde5380c), 23)
         == W(0x004b6669)
  {
  }

  lemma EmptyOutcomes36()
    ensures Operation(H(W(0x004b6669), W(0x12f3e755), W(0xc3689f5b)), W(0xdf63eaa1), W(0x004b6669), W(0x00000000), W(0xa4beea44), 4)
         == W(0x5f7a9b2e)
    ensures Operation(H(W(0x5f7a9b2e), W(0x004b6669), W(0x12f3e755)), W(0xc3689f5b), W(0x5f7a9b2e), W(0x00000000), W(0x4bdecfa9), 11)
         == W(0xabc34e16)
    ensures Operation(H(W(0xabc34e16), W(0x5f7a9b2e), W(0x004b6669)), W(0x12f3e755), W(0xabc34e16), W(0x00000000), W(0xf6bb4b60), 16)
         == W(0x91ca4cb7)
    ensures Operation(H(W(0x91ca4cb7), W(0xabc34e16), W(0x5f7a9b2e)), W(0x004b6669), W(0x91ca4cb7), W(0x00000000), W(0xbebfbc70), 23)
         == W(0xc5dc8c15)
  {
  }

  lemma EmptyOutcomes40()
    ensures Operation(H(W(0xc5dc8c15), W(0x91ca4cb7), W(0xabc34e16)), W(0x5f7a9b2e), W(0xc5dc8c15), W(0x00000000), W(0x289b7ec6), 4)
         == W(0x4497169d)
    ensures Operation(H(W(0x4497169d), W(0xc5dc8c15), W(0x91ca4cb7)), W(0xabc34e16), W(0x4497169d), W(0x00000080), W(0xeaa127fa), 11)
         == W(0x76fd93d4)
    ensures Operation(H(W(0x76fd93d4), W(0x4497169d), W(0xc5dc8c15)), W(0x91ca4cb7), W(0x76fd93d4), W(0x00000000), W(0xd4ef3085), 16)
         == W(0xfd95f243)
    ensures Operation(H(W(0xfd95f243), W(0x76fd93d4), W(0x4497169d)), W(0xc5dc8c15), W(0xfd95f243), W(0x00000000), W(0x04881d05), 23)
         == W(0x0fe32453)
  {
  }

  lemma EmptyOutcomes44()
    ensures Operation(H(W(0x0fe32453), W(0xfd95f243), W(0x76fd93d4)), W(0x4497169d), W(0x0fe32453), W(0x00000000), W(0xd9d4d039), 4)
         == W(0x3f55edfd)
    ensures Operation(H(W(0x3f55edfd), W(0x0fe32453), W(0xfd95f243)), W(0x76fd93d4), W(0x3f55edfd), W(0x00000000), W(0xe6db99e5), 11)
         == W(0x22a31f54)
    ensures Operation(H(W(0x22a31f54), W(0x3f55edfd), W(0x0fe32453)), W(0xfd95f243), W(0x22a31f54), W(0x00000000), W(0x1fa27cf8), 16)
         == W(0x68d84ea2)
    ensures Operation(H(W(0x68d84ea2), W(0x22a31f54), W(0x3f55edfd)), W(0x0fe32453), W(0x68d84ea2), W(0x00000000), W(0xc4ac5665), 23)
         == W(0xca7d2dbd)
  {
  }

  lemma EmptyOutcomes48()
    ensures Operation(I(W(0xca7d2dbd), W(0x68d84ea2), W(0x22a31f54)), W(0x3f55edfd), W(0xca7d2dbd), W(0x00000080), W(0xf4292244), 6)
         == W(0x93aa2577)
    ensures Operation(I(W(0x93aa2577), W(0xca7d2dbd), W(0x68d84ea2)), W(0x22a31f54), W(0x93aa2577), W(0x00000000), W(0x432aff97), 10)
         == W(0x1688dc85)
    ensures Operation(I(W(0x1688dc85), W(0x93aa2577), W(0xca7d2dbd)), W(0x68d84ea2), W(0x1688dc85), W(0x00000000), W(0xab9423a7), 15)
         == W(0xcd85b8cb)
    ensures Operation(I(W(0xcd85b8cb), W(0x1688dc85), W(0x93aa2577)), W(0xca7d2dbd), W(0xcd85b8cb), W(0x00000000), W(0xfc93a039), 21)
         == W(0x561e0689)
  {
  }

  lemma EmptyOutcomes52()
    ensures Operation(I(W(0x561e0689), W(0xcd85b8cb), W(0x1688dc85)), W(0x93aa2577), W(0x561e0689), W(0x00000000), W(0x655b59c3), 6)
         == W(0x5625a114)
    ensures Operation(I(W(0x5625a114), W(0x561e0689), W(0xcd85b8cb)), W(0x1688dc85), W(0x5625a114), W(0x00000000), W(0x8f0ccc92), 10)
         == W(0x3450f42b)
    ensures Operation(I(W(0x3450f42b), W(0x5625a114), W(0x561e0689)), W(0xcd85b8cb), W(0x3450f42b), W(0x00000000), W(0xffeff47d), 15)
         == W(0x392ad0d0)
    ensures Operation(I(W(0x392ad0d0), W(0x3450f42b), W(0x5625a114)), W(0x561e0689), W(0x392ad0d0), W(0x00000000), W(0x85845dd1), 21)
         == W(0x1e77fa61)
  {
  }

  lemma EmptyOutcomes56()
    ensures Operation(I(W(0x1e77fa61), W(0x392ad0d0), W(0x3450f42b)), W(0x5625a114), W(0x1e77fa61), W(0x00000000), W(0x6fa87e4f), 6)
         == W(0x474a9c8c)
    ensures Operation(I(W(0x474a9c8c), W(0x1e77fa61), W(0x392ad0d0)), W(0x3450f42b), W(0x474a9c8c), W(0x00000000), W(0xfe2ce6e0), 10)
         == W(0xdfce00bc)
    ensures Operation(I(W(0xdfce00bc), W(0x474a9c8c), W(0x1e77fa61)), W(0x392ad0d0), W(0xdfce00bc), W(0x00000000), W(0xa3014314), 15)
         == W(0x36594b14)
    ensures Operation(I(W(0x36594b14), W(0xdfce00bc), W(0x474a9c8c)), W(0x1e77fa61), W(0x36594b14), W(0x00000000), W(0x4e0811a1), 21)
         == W(0x30130182)
  {
  }

  lemma EmptyOutcomes60()
    ensures Operation(I(W(0x30130182), W(0x36594b14), W(0xdfce00bc)), W(0x474a9c8c), W(0x30130182), W(0x00000000), W(0xf7537e82), 6)
         == W(0x7246fad3)
    ensures Operation(I(W(0x7246fad3), W(0x30130182), W(0x36594b14)), W(0xdfce00bc), W(0x7246fad3), W(0x00000000), W(0xbd3af235), 10)
         == W(0x6e10a476)
    ensures Operation(I(W(0x6e10a476), W(0x7246fad3), W(0x30130182)), W(0x36594b14), W(0x6e10a476), W(0x00000000), W(0x2ad7d2bb), 15)
         == W(0xff4ea3eb)
    ensures Operation(I(W(0xff4ea3eb), W(0x6e10a476), W(0x7246fad3)), W(0x30130182), W(0xff4ea3eb), W(0x00000000), W(0xeb86d391), 21)
         == W(0x14e45506)
  {
  }

  lemma EmptyRound1()
    ensures Steps(16, EmptyBlock(), INITIAL) == Registers(W(0xf56c7cf1), W(0xd6819c6a), W(0x5aa53f75), W(0x374943a7))
  {
    hide RowAt, Operation, F, G, H, I, Steps;
    var x := EmptyBlock();
    NoSteps(x);
    Rows1();
    EmptyOutcomes0();
    Next(0, x, Registers(W(0x67452301), W(0xefcdab89), W(0x98badcfe), W(0x10325476)), Row(0, 7, W(0xd76aa478)), W(0xa5202774));
    Next(1, x, Registers(W(0x10325476), W(0xa5202774), W(0xefcdab89), W(0x98badcfe)), Row(1, 12, W(0xe8c7b756)), W(0xf59592dd));
    Next(2, x, Registers(W(0x98badcfe), W(0xf59592dd), W(0xa5202774), W(0xefcdab89)), Row(2, 17, W(0x242070db)), W(0xe7f06b23));
    Next(3, x, Registers(W(0xefcdab89), W(0xe7f06b23), W(0xf59592dd), W(0xa5202774)), Row(3, 22, W(0xc1bdceee)), W(0x1b163203));
    Rows2();
    EmptyOutcomes4();
    Next(4, x, Registers(W(0xa5202774), W(0x1b163203), W(0xe7f06b23), W(0xf59592dd)), Row(4, 7, W(0xf57c0faf)), W(0x32033344));
    Next(5, x, Registers(W(0xf59592dd), W(0x32033344), W(0x1b163203), W(0xe7f06b23)), Row(5, 12, W(0x4787c62a)), W(0x2f35d494));
    Next(6, x, Registers(W(0xe7f06b23), W(0x2f35d494), W(0x32033344), W(0x1b163203)), Row(6, 17, W(0xa8304613)), W(0xf5b158db));
    Next(7, x, Registers(W(0x1b163203), W(0xf5b158db), W(0x2f35d494), W(0x32033344)), Row(7, 22, W(0xfd469501)), W(0x9bc13ce9));
    Rows3();
    EmptyOutcomes8();
    Next(8, x, Registers(W(0x32033344), W(0x9bc13ce9), W(0xf5b158db), W(0x2f35d494)), Row(8, 7, W(0x698098d8)), W(0x3893b991));
    Next(9, x, Registers(W(0x2f35d494), W(0x3893b991), W(0x9bc13ce9), W(0xf5b158db)), Row(9, 12, W(0x8b44f7af)), W(0xfce4a312));
    Next(10, x, Registers(W(0xf5b158db), W(0xfce4a312), W(0x3893b991), W(0x9bc13ce9)), Row(10, 17, W(0xffff5bb1)), W(0xe1ef0576));
    Next(11, x, Registers(W(0x9bc13ce9), W(0xe1ef0576), W(0xfce4a312), W(0x3893b991)), Row(11, 22, W(0x895cd7be)), W(0x70768a29));
    Rows4();
    EmptyOutcomes12();
    Next(12, x, Registers(W(0x3893b991), W(0x70768a29), W(0xe1ef0576), W(0xfce4a312)), Row(12, 7, W(0x6b901122)), W(0xf56c7cf1));
    Next(13, x, Registers(W(0xfce4a312), W(0xf56c7cf1), W(0x70768a29), W(0xe1ef0576)), Row(13, 12, W(0xfd987193)), W(0x374943a7));
    Next(14, x, Registers(W(0xe1ef0576), W(0x374943a7), W(0xf56c7cf1), W(0x70768a29)), Row(14, 17, W(0xa679438e)), W(0x5aa53f75));
    Next(15, x, Registers(W(0x70768a29), W(0x5aa53f75), W(0x374943a7), W(0xf56c7cf1)), Row(15, 22, W(0x49b40821)), W(0xd6819c6a));
  }

  lemma EmptyRound2()
    ensures Steps(32, EmptyBlock(), INITIAL) == Registers(W(0x13707036), W(0xa2205f1f), W(0x1c31c384), W(0xae7813db))
  {
    hide RowAt, Operation, F, G, H, I, Steps;
    var x := EmptyBlock();
    EmptyRound1();
    Rows5();
    EmptyOutcomes16();
    Next(16, x, Registers(W(0xf56c7cf1), W(0xd6819c6a), W(0x5aa53f75), W(0x374943a7)), Row(1, 5, W(0xf61e2562)), W(0x1c7d7513));
    Next(17, x, Registers(W(0x374943a7), W(0x1c7d7513), W(0xd6819c6a), W(0x5aa53f75)), Row(6, 9, W(0xc040b340)), W(0x7bd57a3a));
    Next(18, x, Registers(W(0x5aa53f75), W(0x7bd57a3a), W(0x1c7d7513), W(0xd6819c6a)), Row(11, 14, W(0x265e5a51)), W(0xc095f13a));
    Next(19, x, Registers(W(0xd6819c6a), W(0xc095f13a), W(0x7bd57a3a), W(0x1c7d7513)), Row(0, 20, W(0xe9b6c7aa)), W(0xbd782e17));
    Rows6();
    EmptyOutcomes20();
    Next(20, x, Registers(W(0x1c7d7513), W(0xbd782e17), W(0xc095f13a), W(0x7bd57a3a)), Row(5, 5, W(0xd62f105d)), W(0x3d1e3e6c));
    Next(21, x, Registers(W(0x7bd57a3a), W(0x3d1e3e6c), W(0xbd782e17), W(0xc095f13a)), Row(10, 9, W(0x02441453)), W(0x68b7b3e3));
    Next(22, x, Registers(W(0xc095f13a), W(0x68b7b3e3), W(0x3d1e3e6c), W(0xbd782e17)), Row(15, 14, W(0xd8a1e681)), W(0xeb41643e));
    Next(23, x, Registers(W(0xbd782e17), W(0xeb41643e), W(0x68b7b3e3), W(0x3d1e3e6c)), Row(4, 20, W(0xe7d3fbc8)), W(0xe422531a));
    Rows7();
    EmptyOutcomes24();
    Next(24, x, Registers(W(0x3d1e3e6c), W(0xe422531a), W(0xeb41643e), W(0x68b7b3e3)), Row(9, 5, W(0x21e1cde6)), W(0x306ec122));
    Next(25, x, Registers(W(0x68b7b3e3), W(0x306ec122), W(0xe422531a), W(0xeb41643e)), Row(14, 9, W(0xc33707d6)), W(0xd28c77c2));
    Next(26, x, Registers(W(0xeb41643e), W(0xd28c77c2), W(0x306ec122), W(0xe422531a)), Row(3, 14, W(0xf4d50d87)), W(0xa3c663da));
    Next(27, x, Registers(W(0xe422531a), W(0xa3c663da), W(0xd28c77c2), W(0x306ec122)), Row(8, 20, W(0x455a14ed)), W(0xa0572807));
    Rows8();
    EmptyOutcomes28();
    Next(28, x, Registers(W(0x306ec122), W(0xa0572807), W(0xa3c663da), W(0xd28c77c2)), Row(13, 5, W(0xa9e3e905)), W(0x13707036));
    Next(29, x, Registers(W(0xd28c77c2), W(0x13707036), W(0xa0572807), W(0xa3c663da)), Row(2, 9, W(0xfcefa3f8)), W(0xae7813db));
    Next(30, x, Registers(W(0xa3c663da), W(0xae7813db), W(0x13707036), W(0xa0572807)), Row(7, 14, W(0x676f02d9)), W(0x1c31c384));
    Next(31, x, Registers(W(0xa0572807), W(0x1c31c384), W(0xae7813db), W(0x13707036)), Row(12, 20, W(0x8d2a4c8a)), W(0xa2205f1f));
  }

  lemma EmptyRound3()
    ensures Steps(48, EmptyBlock(), INITIAL) == Registers(W(0x3f55edfd), W(0xca7d2dbd), W(0x68d84ea2), W(0x22a31f54))
  {
    hide RowAt, Operation, F, G, H, I, Steps;
    var x := EmptyBlock();
    EmptyRound2();
    Rows9();
    EmptyOutcomes32();
    Next(32, x, Registers(W(0x13707036), W(0xa2205f1f), W(0x1c31c384), W(0xae7813db)), Row(5, 4, W(0xfffa3942)), W(0xdf63eaa1));
    Next(33, x, Registers(W(0xae7813db), W(0xdf63eaa1), W(0xa2205f1f), W(0x1c31c384)), Row(8, 11, W(0x8771f681)), W(0xc3689f5b));
    Next(34, x, Registers(W(0x1c31c384), W(0xc3689f5b), W(0xdf63eaa1), W(0xa2205f1f)), Row(11, 16, W(0x6d9d6122)), W(0x12f3e755));
    Next(35, x, Registers(W(0xa2205f1f), W(0x12f3e755), W(0xc3689f5b), W(0xdf63eaa1)), Row(14, 23, W(0xfde5380c)), W(0x004b6669));
    Rows10();
    EmptyOutcomes36();
    Next(36, x, Registers(W(0xdf63eaa1), W(0x004b6669), W(0x12f3e755), W(0xc3689f5b)), Row(1, 4, W(0xa4beea44)), W(0x5f7a9b2e));
    Next(37, x, Registers(W(0xc3689f5b), W(0x5f7a9b2e), W(0x004b6669), W(0x12f3e755)), Row(4, 11, W(0x4bdecfa9)), W(0xabc34e16));
    Next(38, x, Registers(W(0x12f3e755), W(0xabc34e16), W(0x5f7a9b2e), W(0x004b6669)), Row(7, 16, W(0xf6bb4b60)), W(0x91ca4cb7));
    Next(39, x, Registers(W(0x004b6669), W(0x91ca4cb7), W(0xabc34e16), W(0x5f7a9b2e)), Row(10, 23, W(0xbebfbc70)), W(0xc5dc8c15));
    Rows11();
    EmptyOutcomes40();
    Next(40, x, Registers(W(0x5f7a9b2e), W(0xc5dc8c15), W(0x91ca4cb7), W(0xabc34e16)), Row(13, 4, W(0x289b7ec6)), W(0x4497169d));
    Next(41, x, Registers(W(0xabc34e16), W(0x4497169d), W(0xc5dc8c15), W(0x91ca4cb7)), Row(0, 11, W(0xeaa127fa)), W(0x76fd93d4));
    Next(42, x, Registers(W(0x91ca4cb7), W(0x76fd93d4), W(0x4497169d), W(0xc5dc8c15)), Row(3, 16, W(0xd4ef3085)), W(0xfd95f243));
    Next(43, x, Registers(W(0xc5dc8c15), W(0xfd95f243), W(0x76fd93d4), W(0x4497169d)), Row(6, 23, W(0x04881d05)), W(0x0fe32453));
    Rows12();
    EmptyOutcomes44();
    Next(44, x, Registers(W(0x4497169d), W(0x0fe32453), W(0xfd95f243), W(0x76fd93d4)), Row(9, 4, W(0xd9d4d039)), W(0x3f55edfd));
    Next(45, x, Registers(W(0x76fd93d4), W(0x3f55edfd), W(0x0fe32453), W(0xfd95f243)), Row(12, 11, W(0xe6db99e5)), W(0x22a31f54));
    Next(46, x, Registers(W(0xfd95f243), W(0x22a31f54), W(0x3f55edfd), W(0x0fe32453)), Row(15, 16, W(0x1fa27cf8)), W(0x68d84ea2));
    Next(47, x, Registers(W(0x0fe32453), W(0x68d84ea2), W(0x22a31f54), W(0x3f55edfd)), Row(2, 23, W(0xc4ac5665)), W(0xca7d2dbd));
  }

  lemma EmptyRound4()
    ensures Steps(64, EmptyBlock(), INITIAL) == Registers(W(0x7246fad3), W(0x14e45506), W(0xff4ea3eb), W(0x6e10a476))
  {
    hide RowAt, Operation, F, G, H, I, Steps;
    var x := EmptyBlock();
    EmptyRound3();
    Rows13();
    EmptyOutcomes48();
    Next(48, x, Registers(W(0x3f55edfd), W(0xca7d2dbd), W(0x68d84ea2), W(0x22a31f54)), Row(0, 6, W(0xf4292244)), W(0x93aa2577));
    Next(49, x, Registers(W(0x22a31f54), W(0x93aa2577), W(0xca7d2dbd), W(0x68d84ea2)), Row(7, 10, W(0x432aff97)), W(0x1688dc85));
    Next(50, x, Registers(W(0x68d84ea2), W(0x1688dc85), W(0x93aa2577), W(0xca7d2dbd)), Row(14, 15, W(0xab9423a7)), W(0xcd85b8cb));
    Next(51, x, Registers(W(0xca7d2dbd), W(0xcd85b8cb), W(0x1688dc85), W(0x93aa2577)), Row(5, 21, W(0xfc93a039)), W(0x561e0689));
    Rows14();
    EmptyOutcomes52();
    Next(52, x, Registers(W(0x93aa2577), W(0x561e0689), W(0xcd85b8cb), W(0x1688dc85)), Row(12, 6, W(0x655b59c3)), W(0x5625a114));
    Next(53, x, Registers(W(0x1688dc85), W(0x5625a114), W(0x561e0689), W(0xcd85b8cb)), Row(3, 10, W(0x8f0ccc92)), W(0x3450f42b));
    Next(54, x, Registers(W(0xcd85b8cb), W(0x3450f42b), W(0x5625a114), W(0x561e0689)), Row(10, 15, W(0xffeff47d)), W(0x392ad0d0));
    Next(55, x, Registers(W(0x561e0689), W(0x392ad0d0), W(0x3450f42b), W(0x5625a114)), Row(1, 21, W(0x85845dd1)), W(0x1e77fa61));
    Rows15();
    EmptyOutcomes56();
    Next(56, x, Registers(W(0x5625a114), W(0x1e77fa61), W(0x392ad0d0), W(0x3450f42b)), Row(8, 6, W(0x6fa87e4f)), W(0x474a9c8c));
    Next(57, x, Registers(W(0x3450f42b), W(0x474a9c8c), W(0x1e77fa61), W(0x392ad0d0)), Row(15, 10, W(0xfe2ce6e0)), W(0xdfce00bc));
    Next(58, x, Registers(W(0x392ad0d0), W(0xdfce00bc), W(0x474a9c8c), W(0x1e77fa61)), Row(6, 15, W(0xa3014314)), W(0x36594b14));
    Next(59, x, Registers(W(0x1e77fa61), W(0x36594b14), W(0xdfce00bc), W(0x474a9c8c)), Row(13, 21, W(0x4e0811a1)), W(0x30130182));
    Rows16();
    EmptyOutcomes60();
    Next(60, x, Registers(W(0x474a9c8c), W(0x30130182), W(0x36594b14), W(0xdfce00bc)), Row(4, 6, W(0xf7537e82)), W(0x7246fad3));
    Next(61, x, Registers(W(0xdfce00bc), W(0x7246fad3), W(0x30130182), W(0x36594b14)), Row(11, 10, W(0xbd3af235)), W(0x6e10a476));
    Next(62, x, Registers(W(0x36594b14), W(0x6e10a476), W(0x7246fad3), W(0x30130182)), Row(2, 15, W(0x2ad7d2bb)), W(0xff4ea3eb));
    Next(63, x, Registers(W(0x30130182), W(0xff4ea3eb), W(0x6e10a476), W(0x7246fad3)), Row(9, 21, W(0xeb86d391)), W(0x14e45506));
  }

  function EmptyMessage(): seq<Byte> { [] }

  function EmptyDigest(): seq<Byte> {
    [Byte(0xd4), Byte(0x1d), Byte(0x8c), Byte(0xd9), Byte(0x8f), Byte(0x00), Byte(0xb2), Byte(0x04),
     Byte(0xe9), Byte(0x80), Byte(0x09), Byte(0x98), Byte(0xec), Byte(0xf8), Byte(0x42), Byte(0x7e)]
  }

  lemma EmptyWords()
    ensures WordOf(Byte(0x80), Byte(0x00), Byte(0x00), Byte(0x00)) == W(0x00000080)
    ensures WordOf(Byte(0x00), Byte(0x00), Byte(0x00), Byte(0x00)) == W(0x00000000)
    ensures WordOf(Byte(0), Byte(0), Byte(0), Byte(0)) == W(0)
  {
  }

  lemma EmptyLength()
    ensures LittleEndian(0, 8) == [Byte(0x00)] + Zeros(7)
  {
  }

  lemma EmptyPadded()
    ensures var p := Pad(EmptyMessage());
            && |p| == 64
            && p[0] == Byte(0x80) && p[1] == Byte(0x00) && p[2] == Byte(0x00) && p[3] == Byte(0x00)
            && (forall i | 4 <= i < 56 :: p[i] == Byte(0))
            && p[56] == Byte(0x00) && forall i | 57 <= i < 64 :: p[i] == Byte(0)
  {
    hide LittleEndian;
    EmptyLength();
  }

  lemma EmptyDecoded()
    ensures |Pad(EmptyMessage())| == 64 && Decode(Pad(EmptyMessage())) == EmptyBlock()
  {
    hide WordOf, Pad;
    EmptyPadded();
    EmptyWords();
  }

  lemma EmptyIsKnown()
    ensures Digest(EmptyMessage()) == EmptyDigest()
  {
    hide Steps, EmptyBlock, Pad, Decode, INITIAL;
    EmptyDecoded();
    EmptyRound4();
    OneBlock(INITIAL, Pad(EmptyMessage()));
    EmptySummed();
    EmptyWritten();
  }

  lemma EmptySummed()
    ensures Add(W(0x7246fad3), INITIAL.a) == W(0xd98c1dd4) && Add(W(0x14e45506), INITIAL.b) == W(0x04b2008f)
    ensures Add(W(0xff4ea3eb), INITIAL.c) == W(0x980980e9) && Add(W(0x6e10a476), INITIAL.d) == W(0x7e42f8ec)
  {
  }

  lemma EmptyWritten()
    ensures Output(Registers(W(0xd98c1dd4), W(0x04b2008f), W(0x980980e9), W(0x7e42f8ec))) == EmptyDigest()
  {
  }

  // MD5 ("abc") = 900150983cd24fb0d6963f7d28e17f72

  function AbcBlock(): (x: seq<Word>)
    ensures |x| == 16
  {
    [W(0x80636261), W(0x00000000), W(0x00000000), W(0x00000000),
     W(0x00000000), W(0x00000000), W(0x00000000), W(0x00000000),
     W(0x00000000), W(0x00000000), W(0x00000000), W(0x00000000),
     W(0x00000000), W(0x00000000), W(0x00000018), W(0x00000000)]
  }

  lemma AbcOutcomes0()
    ensures Operation(F(W(0xefcdab89), W(0x98badcfe), W(0x10325476)), W(0x67452301), W(0xefcdab89), W(0x80636261), W(0xd76aa478), 7)
         == W(0xd6d117b4)
    ensures Operation(F(W(0xd6d117b4), W(0xefcdab89), W(0x98badcfe)), W(0x10325476), W(0xd6d117b4), W(0x00000000), W(0xe8c7b756), 12)
         == W(0x344a8432)
    ensures Operation(F(W(0x344a8432), W(0xd6d117b4), W(0xefcdab89)), W(0x98badcfe), W(0x344a8432), W(0x00000000), W(0x242070db), 17)
         == W(0x2f6fbd72)
    ensures Operation(F(W(0x2f6fbd72), W(0x344a8432), W(0xd6d117b4)), W(0xefcdab89), W(0x2f6fbd72), W(0x00000000), W(0xc1bdceee), 22)
         == W(0x7ad956f2)
  {
  }

  lemma AbcOutcomes4()
    ensures Operation(F(W(0x7ad956f2), W(0x2f6fbd72), W(0x344a8432)), W(0xd6d117b4), W(0x7ad956f2), W(0x00000000), W(0xf57c0faf), 7)
         == W(0xc73741ef)
    ensures Operation(F(W(0xc73741ef), W(0x7ad956f2), W(0x2f6fbd72)), W(0x344a8432), W(0xc73741ef), W(0x00000000), W(0x4787c62a), 12)
         == W(0x8bac3051)
    ensures Operation(F(W(0x8bac3051), W(0xc73741ef), W(0x7ad956f2)), W(0x2f6fbd72), W(0x8bac3051), W(0x00000000), W(0xa8304613), 17)
         == W(0x207dc67b)
    ensures Operation(F(W(0x207dc67b), W(0x8bac3051), W(0xc73741ef)), W(0x7ad956f2), W(0x207dc67b), W(0x00000000), W(0xfd469501), 22)
         == W(0x928d99f6)
  {
  }

  lemma AbcOutcomes8()
    ensures Operation(F(W(0x928d99f6), W(0x207dc67b), W(0x8bac3051)), W(0xc73741ef), W(0x928d99f6), W(0x00000000), W(0x698098d8), 7)
         == W(0x854b3712)
    ensures Operation(F(W(0x854b3712), W(0x928d99f6), W(0x207dc67b)), W(0x8bac3051), W(0x854b3712), W(0x00000000), W(0x8b44f7af), 12)
         == W(0x74e2f284)
    ensures Operation(F(W(0x74e2f284), W(0x854b3712), W(0x928d99f6)), W(0x207dc67b), W(0x74e2f284), W(0x00000000), W(0xffff5bb1), 17)
         == W(0x3020401c)
    ensures Operation(F(W(0x3020401c), W(0x74e2f284), W(0x854b3712)), W(0x928d99f6), W(0x3020401c), W(0x00000000), W(0x895cd7be), 22)
         == W(0x5ed49596)
  {
  }

  lemma AbcOutcomes12()
    ensures Operation(F(W(0x5ed49596), W(0x3020401c), W(0x74e2f284)), W(0x854b3712), W(0x5ed49596), W(0x00000000), W(0x6b901122), 7)
         == W(0xdda9b9a6)
    ensures Operation(F(W(0xdda9b9a6), W(0x5ed49596), W(0x3020401c)), W(0x74e2f284), W(0xdda9b9a6), W(0x00000000), W(0xfd987193), 12)
         == W(0xa1051895)
    ensures Operation(F(W(0xa1051895), W(0xdda9b9a6), W(0x5ed49596)), W(0x3020401c), W(0xa1051895), W(0x00000018), W(0xa679438e), 17)
         == W(0xe396856b)
    ensures Operation(F(W(0xe396856b), W(0xa1051895), W(0xdda9b9a6)), W(0x5ed49596), W(0xe396856b), W(0x00000000), W(0x49b40821), 22)
         == W(0x72aff2e0)
  {
  }

  lemma AbcOutcomes16()
    ensures Operation(G(W(0x72aff2e0), W(0xe396856b), W(0xa1051895)), W(0xdda9b9a6), W(0x72aff2e0), W(0x00000000), W(0xf61e2562), 5)
         == W(0x3e9e9126)
    ensures Operation(G(W(0x3e9e9126), W(0x72aff2e0), W(0xe396856b)), W(0xa1051895), W(0x3e9e9126), W(0x00000000), W(0xc040b340), 9)
         == W(0x4a1d804e)
    ensures Operation(G(W(0x4a1d804e), W(0x3e9e9126), W(0x72aff2e0)), W(0xe396856b), W(0x4a1d804e), W(0x00000000), W(0x265e5a51), 14)
         == W(0xe25e1652)
    ensures Operation(G(W(0xe25e1652), W(0x4a1d804e), W(0x3e9e9126)), W(0x72aff2e0), W(0xe25e1652), W(0x80636261), W(0xe9b6c7aa), 20)
         == W(0xb5b204e4)
  {
  }

  lemma AbcOutcomes20()
    ensures Operation(G(W(0xb5b204e4), W(0xe25e1652), W(0x4a1d804e)), W(0x3e9e9126), W(0xb5b204e4), W(0x00000000), W(0xd62f105d), 5)
         == W(0x59a8ffda)
    ensures Operation(G(W(0x59a8ffda), W(0xb5b204e4), W(0xe25e1652)), W(0x4a1d804e), W(0x59a8ffda), W(0x00000000), W(0x02441453), 9)
         == W(0x6d002f1e)
    ensures Operation(G(W(0x6d002f1e), W(0x59a8ffda), W(0xb5b204e4)), W(0xe25e1652), W(0x6d002f1e), W(0x00000000), W(0xd8a1e681), 14)
         == W(0xabfc7920)
    ensures Operation(G(W(0xabfc7920), W(0x6d002f1e), W(0x59a8ffda)), W(0xb5b204e4), W(0xabfc7920), W(0x00000000), W(0xe7d3fbc8), 20)
         == W(0x47092c07)
  {
  }

  lemma AbcOutcomes24()
    ensures Operation(G(W(0x47092c07), W(0xabfc7920), W(0x6d002f1e)), W(0x59a8ffda), W(0x47092c07), W(0x00000000), W(0x21e1cde6), 5)
         == W(0xb7f268cf)
    ensures Operation(G(W(0xb7f268cf), W(0x47092c07), W(0xabfc7920)), W(0x6d002f1e), W(0xb7f268cf), W(0x00000018), W(0xc33707d6), 9)
         == W(0x09388eff)
    ensures Operation(G(W(0x09388eff), W(0xb7f268cf), W(0x47092c07)), W(0xabfc7920), W(0x09388eff), W(0x00000000), W(0xf4d50d87), 14)
         == W(0xfe1623b1)
    ensures Operation(G(W(0xfe1623b1), W(0x09388eff), W(0xb7f268cf)), W(0x47092c07), W(0xfe1623b1), W(0x00000000), W(0x455a14ed), 20)
         == W(0x786acb8f)
  {
  }

  lemma AbcOutcomes28()
    ensures Operation(G(W(0x786acb8f), W(0xfe1623b1), W(0x09388eff)), W(0xb7f268cf), W(0x786acb8f), W(0x00000000), W(0xa9e3e905), 5)
         == W(0x790a77fb)
    ensures Operation(G(W(0x790a77fb), W(0x786acb8f), W(0xfe1623b1)), W(0x09388eff), W(0x790a77fb), W(0x00000000), W(0xfcefa3f8), 9)
         == W(0x9f47e4f8)
    ensures Operation(G(W(0x9f47e4f8), W(0x790a77fb), W(0x786acb8f)), W(0xfe1623b1), W(0x9f47e4f8), W(0x00000000), W(0x676f02d9), 14)
         == W(0xa62884aa)
    ensures Operation(G(W(0xa62884aa), W(0x9f47e4f8), W(0x790a77fb)), W(0x786acb8f), W(0xa62884aa), W(0x00000000), W(0x8d2a4c8a), 20)
         == W(0x726342d3)
  {
  }

  lemma AbcOutcomes32()
    ensures Operation(H(W(0x726342d3), W(0xa62884aa), W(0x9f47e4f8)), W(0x790a77fb), W(0x726342d3), W(0x00000000), W(0xfffa3942), 4)
         == W(0xb3707ebf)
    ensures Operation(H(W(0xb3707ebf), W(0x726342d3), W(0xa62884aa)), W(0x9f47e4f8), W(0xb3707ebf), W(0x00000000), W(0x8771f681), 11)
         == W(0x60127b2e)
    ensures Operation(H(W(0x60127b2e), W(0xb3707ebf), W(0x726342d3)), W(0xa62884aa), W(0x60127b2e), W(0x00000000), W(0x6d9d6122), 16)
         == W(0x8d212ff5)
    ensures Operation(H(W(0x8d212ff5), W(0x60127b2e), W(0xb3707ebf)), W(0x726342d3), W(0x8d212ff5), W(0x00000018), W(0xfde5380c), 23)
         == W(0x3b0875c7)
  {
  }

  lemma AbcOutcomes36()
    ensures Operation(H(W(0x3b0875c7), W(0x8d212ff5), W(0x60127b2e)), W(0xb3707ebf), W(0x3b0875c7), W(0x00000000), W(0xa4beea44), 4)
         == W(0x21b117b9)
    ensures Operation(H(W(0x21b117b9), W(0x3b0875c7), W(0x8d212ff5)), W(0x60127b2e), W(0x21b117b9), W(0x00000000), W(0x4bdecfa9), 11)
         == W(0x6e7429d5)
    ensures Operation(H(W(0x6e7429d5), W(0x21b117b9), W(0x3b0875c7)), W(0x8d212ff5), W(0x6e7429d5), W(0x00000000), W(0xf6bb4b60), 16)
         == W(0x3575227e)
    ensures Operation(H(W(0x3575227e), W(0x6e7429d5), W(0x21b117b9)), W(0x3b0875c7), W(0x3575227e), W(0x00000000), W(0xbebfbc70), 23)
         == W(0x5a2f5ea5)
  {
  }

  lemma AbcOutcomes40()
    ensures Operation(H(W(0x5a2f5ea5), W(0x3575227e), W(0x6e7429d5)), W(0x21b117b9), W(0x5a2f5ea5), W(0x00000000), W(0x289b7ec6), 4)
         == W(0x11de1779)
    ensures Operation(H(W(0x11de1779), W(0x5a2f5ea5), W(0x3575227e)), W(0x6e7429d5), W(0x11de1779), W(0x80636261), W(0xeaa127fa), 11)
         == W(0xfadcaa38)
    ensures Operation(H(W(0xfadcaa38), W(0x11de1779), W(0x5a2f5ea5)), W(0x3575227e), W(0xfadcaa38), W(0x00000000), W(0xd4ef3085), 16)
         == W(0x31c465ca)
    ensures Operation(H(W(0x31c465ca), W(0xfadcaa38), W(0x11de1779)), W(0x5a2f5ea5), W(0x31c465ca), W(0x00000000), W(0x04881d05), 23)
         == W(0x4c6124f4)
  {
  }

  lemma AbcOutcomes44()
    ensures Operation(H(W(0x4c6124f4), W(0x31c465ca), W(0xfadcaa38)), W(0x11de1779), W(0x4c6124f4), W(0x00000000), W(0xd9d4d039), 4)
         == W(0x7f2e507b)
    ensures Operation(H(W(0x7f2e507b), W(0x4c6124f4), W(0x31c465ca)), W(0xfadcaa38), W(0x7f2e507b), W(0x00000000), W(0xe6db99e5), 11)
         == W(0x99d9679d)
    ensures Operation(H(W(0x99d9679d), W(0x7f2e507b), W(0x4c6124f4)), W(0x31c465ca), W(0x99d9679d), W(0x00000000), W(0x1fa27cf8), 16)
         == W(0x8fae6399)
    ensures Operation(H(W(0x8fae6399), W(0x99d9679d), W(0x7f2e507b)), W(0x4c6124f4), W(0x8fae6399), W(0x00000000), W(0xc4ac5665), 23)
         == W(0x7beb9700)
  {
  }

  lemma AbcOutcomes48()
    ensures Operation(I(W(0x7beb9700), W(0x8fae6399), W(0x99d9679d)), W(0x7f2e507b), W(0x7beb9700), W(0x80636261), W(0xf4292244), 6)
         == W(0x7b201df8)
    ensures Operation(I(W(0x7b201df8), W(0x7beb9700), W(0x8fae6399)), W(0x99d9679d), W(0x7b201df8), W(0x00000000), W(0x432aff97), 10)
         == W(0xf4e8e96e)
    ensures Operation(I(W(0xf4e8e96e), W(0x7b201df8), W(0x7beb9700)), W(0x8fae6399), W(0xf4e8e96e), W(0x00000018), W(0xab9423a7), 15)
         == W(0xb298cefd)
    ensures Operation(I(W(0xb298cefd), W(0xf4e8e96e), W(0x7b201df8)), W(0x7beb9700), W(0xb298cefd), W(0x00000000), W(0xfc93a039), 21)
         == W(0x8bf025c4)
  {
  }

  lemma AbcOutcomes52()
    ensures Operation(I(W(0x8bf025c4), W(0xb298cefd), W(0xf4e8e96e)), W(0x7b201df8), W(0x8bf025c4), W(0x00000000), W(0x655b59c3), 6)
         == W(0x06cc5e8a)
    ensures Operation(I(W(0x06cc5e8a), W(0x8bf025c4), W(0xb298cefd)), W(0xf4e8e96e), W(0x06cc5e8a), W(0x00000000), W(0x8f0ccc92), 10)
         == W(0x5b0d97aa)
    ensures Operation(I(W(0x5b0d97aa), W(0x06cc5e8a), W(0x8bf025c4)), W(0xb298cefd), W(0x5b0d97aa), W(0x00000000), W(0xffeff47d), 15)
         == W(0x7d632dd0)
    ensures Operation(I(W(0x7d632dd0), W(0x5b0d97aa), W(0x06cc5e8a)), W(0x8bf025c4), W(0x7d632dd0), W(0x00000000), W(0x85845dd1), 21)
         == W(0x3bfa2c27)
  {
  }

  lemma AbcOutcomes56()
    ensures Operation(I(W(0x3bfa2c27), W(0x7d632dd0), W(0x5b0d97aa)), W(0x06cc5e8a), W(0x3bfa2c27), W(0x00000000), W(0x6fa87e4f), 6)
         == W(0x7f81cc35)
    ensures Operation(I(W(0x7f81cc35), W(0x3bfa2c27), W(0x7d632dd0)), W(0x5b0d97aa), W(0x7f81cc35), W(0x00000000), W(0xfe2ce6e0), 10)
         == W(0x094454ab)
    ensures Operation(I(W(0x094454ab), W(0x7f81cc35), W(0x3bfa2c27)), W(0x7d632dd0), W(0x094454ab), W(0x00000000), W(0xa3014314), 15)
         == W(0x4f9dbe3f)
    ensures Operation(I(W(0x4f9dbe3f), W(0x094454ab), W(0x7f81cc35)), W(0x3bfa2c27), W(0x4f9dbe3f), W(0x00000000), W(0x4e0811a1), 21)
         == W(0x7327d604)
  {
  }

  lemma AbcOutcomes60()
    ensures Operation(I(W(0x7327d604), W(0x4f9dbe3f), W(0x094454ab)), W(0x7f81cc35), W(0x7327d604), W(0x00000000), W(0xf7537e82), 6)
         == W(0x310ade8f)
    ensures Operation(I(W(0x310ade8f), W(0x7327d604), W(0x4f9dbe3f)), W(0x094454ab), W(0x310ade8f), W(0x00000000), W(0xbd3af235), 10)
         == W(0x624d8cb2)
    ensures Operation(I(W(0x624d8cb2), W(0x310ade8f), W(0x7327d604)), W(0x4f9dbe3f), W(0x624d8cb2), W(0x00000000), W(0x2ad7d2bb), 15)
         == W(0xe484b9d8)
    ensures Operation(I(W(0xe484b9d8), W(0x624d8cb2), W(0x310ade8f)), W(0x7327d604), W(0xe484b9d8), W(0x00000000), W(0xeb86d391), 21)
         == W(0xc08226b3)
  {
  }

  lemma AbcRound1()
    ensures Steps(16, AbcBlock(), INITIAL) == Registers(W(0xdda9b9a6), W(0x72aff2e0), W(0xe396856b), W(0xa1051895))
  {
    hide RowAt, Operation, F, G, H, I, Steps;
    var x := AbcBlock();
    NoSteps(x);
    Rows1();
    AbcOutcomes0();
    Next(0, x, Registers(W(0x67452301), W(0xefcdab89), W(0x98badcfe), W(0x10325476)), Row(0, 7, W(0xd76aa478)), W(0xd6d117b4));
    Next(1, x, Registers(W(0x10325476), W(0xd6d117b4), W(0xefcdab89), W(0x98badcfe)), Row(1, 12, W(0xe8c7b756)), W(0x344a8432));
    Next(2, x, Registers(W(0x98badcfe), W(0x344a8432), W(0xd6d117b4), W(0xefcdab89)), Row(2, 17, W(0x242070db)), W(0x2f6fbd72));
    Next(3, x, Registers(W(0xefcdab89), W(0x2f6fbd72), W(0x344a8432), W(0xd6d117b4)), Row(3, 22, W(0xc1bdceee)), W(0x7ad956f2));
    Rows2();
    AbcOutcomes4();
    Next(4, x, Registers(W(0xd6d117b4), W(0x7ad956f2), W(0x2f6fbd72), W(0x344a8432)), Row(4, 7, W(0xf57c0faf)), W(0xc73741ef));
    Next(5, x, Registers(W(0x344a8432), W(0xc73741ef), W(0x7ad956f2), W(0x2f6fbd72)), Row(5, 12, W(0x4787c62a)), W(0x8bac3051));
    Next(6, x, Registers(W(0x2f6fbd72), W(0x8bac3051), W(0xc73741ef), W(0x7ad956f2)), Row(6, 17, W(0xa8304613)), W(0x207dc67b));
    Next(7, x, Registers(W(0x7ad956f2), W(0x207dc67b), W(0x8bac3051), W(0xc73741ef)), Row(7, 22, W(0xfd469501)), W(0x928d99f6));
    Rows3();
    AbcOutcomes8();
    Next(8, x, Registers(W(0xc73741ef), W(0x928d99f6), W(0x207dc67b), W(0x8bac3051)), Row(8, 7, W(0x698098d8)), W(0x854b3712));
    Next(9, x, Registers(W(0x8bac3051), W(0x854b3712), W(0x928d99f6), W(0x207dc67b)), Row(9, 12, W(0x8b44f7af)), W(0x74e2f284));
    Next(10, x, Registers(W(0x207dc67b), W(0x74e2f284), W(0x854b3712), W(0x928d99f6)), Row(10, 17, W(0xffff5bb1)), W(0x3020401c));
    Next(11, x, Registers(W(0x928d99f6), W(0x3020401c), W(0x74e2f284), W(0x854b3712)), Row(11, 22, W(0x895cd7be)), W(0x5ed49596));
    Rows4();
    AbcOutcomes12();
    Next(12, x, Registers(W(0x854b3712), W(0x5ed49596), W(0x3020401c), W(0x74e2f284)), Row(12, 7, W(0x6b901122)), W(0xdda9b9a6));
    Next(13, x, Registers(W(0x74e2f284), W(0xdda9b9a6), W(0x5ed49596), W(0x3020401c)), Row(13, 12, W(0xfd987193)), W(0xa1051895));
    Next(14, x, Registers(W(0x3020401c), W(0xa1051895), W(0xdda9b9a6), W(0x5ed49596)), Row(14, 17, W(0xa679438e)), W(0xe396856b));
    Next(15, x, Registers(W(0x5ed49596), W(0xe396856b), W(0xa1051895), W(0xdda9b9a6)), Row(15, 22, W(0x49b40821)), W(0x72aff2e0));
  }

  lemma AbcRound2()
    ensures Steps(32, AbcBlock(), INITIAL) == Registers(W(0x790a77fb), W(0x726342d3), W(0xa62884aa), W(0x9f47e4f8))
  {
    hide RowAt, Operation, F, G, H, I, Steps;
    var x := AbcBlock();
    AbcRound1();
    Rows5();
    AbcOutcomes16();
    Next(16, x, Registers(W(0xdda9b9a6), W(0x72aff2e0), W(0xe396856b), W(0xa1051895)), Row(1, 5, W(0xf61e2562)), W(0x3e9e9126));
    Next(17, x, Registers(W(0xa1051895), W(0x3e9e9126), W(0x72aff2e0), W(0xe396856b)), Row(6, 9, W(0xc040b340)), W(0x4a1d804e));
    Next(18, x, Registers(W(0xe396856b), W(0x4a1d804e), W(0x3e9e9126), W(0x72aff2e0)), Row(11, 14, W(0x265e5a51)), W(0xe25e1652));
    Next(19, x, Registers(W(0x72aff2e0), W(0xe25e1652), W(0x4a1d804e), W(0x3e9e9126)), Row(0, 20, W(0xe9b6c7aa)), W(0xb5b204e4));
    Rows6();
    AbcOutcomes20();
    Next(20, x, Registers(W(0x3e9e9126), W(0xb5b204e4), W(0xe25e1652), W(0x4a1d804e)), Row(5, 5, W(0xd62f105d)), W(0x59a8ffda));
    Next(21, x, Registers(W(0x4a1d804e), W(0x59a8ffda), W(0xb5b204e4), W(0xe25e1652)), Row(10, 9, W(0x02441453)), W(0x6d002f1e));
    Next(22, x, Registers(W(0xe25e1652), W(0x6d002f1e), W(0x59a8ffda), W(0xb5b204e4)), Row(15, 14, W(0xd8a1e681)), W(0xabfc7920));
    Next(23, x, Registers(W(0xb5b204e4), W(0xabfc7920), W(0x6d002f1e), W(0x59a8ffda)), Row(4, 20, W(0xe7d3fbc8)), W(0x47092c07));
    Rows7();
    AbcOutcomes24();
    Next(24, x, Registers(W(0x59a8ffda), W(0x47092c07), W(0xabfc7920), W(0x6d002f1e)), Row(9, 5, W(0x21e1cde6)), W(0xb7f268cf));
    Next(25, x, Registers(W(0x6d002f1e), W(0xb7f268cf), W(0x47092c07), W(0xabfc7920)), Row(14, 9, W(0xc33707d6)), W(0x09388eff));
    Next(26, x, Registers(W(0xabfc7920), W(0x09388eff), W(0xb7f268cf), W(0x47092c07)), Row(3, 14, W(0xf4d50d87)), W(0xfe1623b1));
    Next(27, x, Registers(W(0x47092c07), W(0xfe1623b1), W(0x09388eff), W(0xb7f268cf)), Row(8, 20, W(0x455a14ed)), W(0x786acb8f));
    Rows8();
    AbcOutcomes28();
    Next(28, x, Registers(W(0xb7f268cf), W(0x786acb8f), W(0xfe1623b1), W(0x09388eff)), Row(13, 5, W(0xa9e3e905)), W(0x790a77fb));
    Next(29, x, Registers(W(0x09388eff), W(0x790a77fb), W(0x786acb8f), W(0xfe1623b1)), Row(2, 9, W(0xfcefa3f8)), W(0x9f47e4f8));
    Next(30, x, Registers(W(0xfe1623b1), W(0x9f47e4f8), W(0x790a77fb), W(0x786acb8f)), Row(7, 14, W(0x676f02d9)), W(0xa62884aa));
    Next(31, x, Registers(W(0x786acb8f), W(0xa62884aa), W(0x9f47e4f8), W(0x790a77fb)), Row(12, 20, W(0x8d2a4c8a)), W(0x726342d3));
  }

  lemma AbcRound3()
    ensures Steps(48, AbcBlock(), INITIAL) == Registers(W(0x7f2e507b), W(0x7beb9700), W(0x8fae6399), W(0x99d9679d))
  {
    hide RowAt, Operation, F, G, H, I, Steps;
    var x := AbcBlock();
    AbcRound2();
    Rows9();
    AbcOutcomes32();
    Next(32, x, Registers(W(0x790a77fb), W(0x726342d3), W(0xa62884aa), W(0x9f47e4f8)), Row(5, 4, W(0xfffa3942)), W(0xb3707ebf));
    Next(33, x, Registers(W(0x9f47e4f8), W(0xb3707ebf), W(0x726342d3), W(0xa62884aa)), Row(8, 11, W(0x8771f681)), W(0x60127b2e));
    Next(34, x, Registers(W(0xa62884aa), W(0x60127b2e), W(0xb3707ebf), W(0x726342d3)), Row(11, 16, W(0x6d9d6122)), W(0x8d212ff5));
    Next(35, x, Registers(W(0x726342d3), W(0x8d212ff5), W(0x60127b2e), W(0xb3707ebf)), Row(14, 23, W(0xfde5380c)), W(0x3b0875c7));
    Rows10();
    AbcOutcomes36();
    Next(36, x, Registers(W(0xb3707ebf), W(0x3b0875c7), W(0x8d212ff5), W(0x60127b2e)), Row(1, 4, W(0xa4beea44)), W(0x21b117b9));
    Next(37, x, Registers(W(0x60127b2e), W(0x21b117b9), W(0x3b0875c7), W(0x8d212ff5)), Row(4, 11, W(0x4bdecfa9)), W(0x6e7429d5));
    Next(38, x, Registers(W(0x8d212ff5), W(0x6e7429d5), W(0x21b117b9), W(0x3b0875c7)), Row(7, 16, W(0xf6bb4b60)), W(0x3575227e));
    Next(39, x, Registers(W(0x3b0875c7), W(0x3575227e), W(0x6e7429d5), W(0x21b117b9)), Row(10, 23, W(0xbebfbc70)), W(0x5a2f5ea5));
    Rows11();
    AbcOutcomes40();
    Next(40, x, Registers(W(0x21b117b9), W(0x5a2f5ea5), W(0x3575227e), W(0x6e7429d5)), Row(13, 4, W(0x289b7ec6)), W(0x11de1779));
    Next(41, x, Registers(W(0x6e7429d5), W(0x11de1779), W(0x5a2f5ea5), W(0x3575227e)), Row(0, 11, W(0xeaa127fa)), W(0xfadcaa38));
    Next(42, x, Registers(W(0x3575227e), W(0xfadcaa38), W(0x11de1779), W(0x5a2f5ea5)), Row(3, 16, W(0xd4ef3085)), W(0x31c465ca));
    Next(43, x, Registers(W(0x5a2f5ea5), W(0x31c465ca), W(0xfadcaa38), W(0x11de1779)), Row(6, 23, W(0x04881d05)), W(0x4c6124f4));
    Rows12();
    AbcOutcomes44();
    Next(44, x, Registers(W(0x11de1779), W(0x4c6124f4), W(0x31c465ca), W(0xfadcaa38)), Row(9, 4, W(0xd9d4d039)), W(0x7f2e507b));
    Next(45, x, Registers(W(0xfadcaa38), W(0x7f2e507b), W(0x4c6124f4), W(0x31c465ca)), Row(12, 11, W(0xe6db99e5)), W(0x99d9679d));
    Next(46, x, Registers(W(0x31c465ca), W(0x99d9679d), W(0x7f2e507b), W(0x4c6124f4)), Row(15, 16, W(0x1fa27cf8)), W(0x8fae6399));
    Next(47, x, Registers(W(0x4c6124f4), W(0x8fae6399), W(0x99d9679d), W(0x7f2e507b)), Row(2, 23, W(0xc4ac5665)), W(0x7beb9700));
  }

  lemma AbcRound4()
    ensures Steps(64, AbcBlock(), INITIAL) == Registers(W(0x310ade8f), W(0xc08226b3), W(0xe484b9d8), W(0x624d8cb2))
  {
    hide RowAt, Operation, F, G, H, I, Steps;
    var x := AbcBlock();
    AbcRound3();
    Rows13();
    AbcOutcomes48();
    Next(48, x, Registers(W(0x7f2e507b), W(0x7beb9700), W(0x8fae6399), W(0x99d9679d)), Row(0, 6, W(0xf4292244)), W(0x7b201df8));
    Next(49, x, Registers(W(0x99d9679d), W(0x7b201df8), W(0x7beb9700), W(0x8fae6399)), Row(7, 10, W(0x432aff97)), W(0xf4e8e96e));
    Next(50, x, Registers(W(0x8fae6399), W(0xf4e8e96e), W(0x7b201df8), W(0x7beb9700)), Row(14, 15, W(0xab9423a7)), W(0xb298cefd));
    Next(51, x, Registers(W(0x7beb9700), W(0xb298cefd), W(0xf4e8e96e), W(0x7b201df8)), Row(5, 21, W(0xfc93a039)), W(0x8bf025c4));
    Rows14();
    AbcOutcomes52();
    Next(52, x, Registers(W(0x7b201df8), W(0x8bf025c4), W(0xb298cefd), W(0xf4e8e96e)), Row(12, 6, W(0x655b59c3)), W(0x06cc5e8a));
    Next(53, x, Registers(W(0xf4e8e96e), W(0x06cc5e8a), W(0x8bf025c4), W(0xb298cefd)), Row(3, 10, W(0x8f0ccc92)), W(0x5b0d97aa));
    Next(54, x, Registers(W(0xb298cefd), W(0x5b0d97aa), W(0x06cc5e8a), W(0x8bf025c4)), Row(10, 15, W(0xffeff47d)), W(0x7d632dd0));
    Next(55, x, Registers(W(0x8bf025c4), W(0x7d632dd0), W(0x5b0d97aa), W(0x06cc5e8a)), Row(1, 21, W(0x85845dd1)), W(0x3bfa2c27));
    Rows15();
    AbcOutcomes56();
    Next(56, x, Registers(W(0x06cc5e8a), W(0x3bfa2c27), W(0x7d632dd0), W(0x5b0d97aa)), Row(8, 6, W(0x6fa87e4f)), W(0x7f81cc35));
    Next(57, x, Registers(W(0x5b0d97aa), W(0x7f81cc35), W(0x3bfa2c27), W(0x7d632dd0)), Row(15, 10, W(0xfe2ce6e0)), W(0x094454ab));
    Next(58, x, Registers(W(0x7d632dd0), W(0x094454ab), W(0x7f81cc35), W(0x3bfa2c27)), Row(6, 15, W(0xa3014314)), W(0x4f9dbe3f));
    Next(59, x, Registers(W(0x3bfa2c27), W(0x4f9dbe3f), W(0x094454ab), W(0x7f81cc35)), Row(13, 21, W(0x4e0811a1)), W(0x7327d604));
    Rows16();
    AbcOutcomes60();
    Next(60, x, Registers(W(0x7f81cc35), W(0x7327d604), W(0x4f9dbe3f), W(0x094454ab)), Row(4, 6, W(0xf7537e82)), W(0x310ade8f));
    Next(61, x, Registers(W(0x094454ab), W(0x310ade8f), W(0x7327d604), W(0x4f9dbe3f)), Row(11, 10, W(0xbd3af235)), W(0x624d8cb2));
    Next(62, x, Registers(W(0x4f9dbe3f), W(0x624d8cb2), W(0x310ade8f), W(0x7327d604)), Row(2, 15, W(0x2ad7d2bb)), W(0xe484b9d8));
    Next(63, x, Registers(W(0x7327d604), W(0xe484b9d8), W(0x624d8cb2), W(0x310ade8f)), Row(9, 21, W(0xeb86d391)), W(0xc08226b3));
  }

  function AbcMessage(): seq<Byte> { [Byte(0x61), Byte(0x62), Byte(0x63)] }

  function AbcDigest(): seq<Byte> {
    [Byte(0x90), Byte(0x01), Byte(0x50), Byte(0x98), Byte(0x3c), Byte(0xd2), Byte(0x4f), Byte(0xb0),
     Byte(0xd6), Byte(0x96), Byte(0x3f), Byte(0x7d), Byte(0x28), Byte(0xe1), Byte(0x7f), Byte(0x72)]
  }

  lemma AbcWords()
    ensures WordOf(Byte(0x61), Byte(0x62), Byte(0x63), Byte(0x80)) == W(0x80636261)
    ensures WordOf(Byte(0x18), Byte(0x00), Byte(0x00), Byte(0x00)) == W(0x00000018)
    ensures WordOf(Byte(0), Byte(0), Byte(0), Byte(0)) == W(0)
  {
  }

  lemma AbcLength()
    ensures LittleEndian(24, 8) == [Byte(0x18)] + Zeros(7)
  {
  }

  lemma AbcPadded()
    ensures var p := Pad(AbcMessage());
            && |p| == 64
            && p[0] == Byte(0x61) && p[1] == Byte(0x62) && p[2] == Byte(0x63) && p[3] == Byte(0x80)
            && (forall i | 4 <= i < 56 :: p[i] == Byte(0))
            && p[56] == Byte(0x18) && forall i | 57 <= i < 64 :: p[i] == Byte(0)
  {
    hide LittleEndian;
    AbcLength();
  }

  lemma AbcDecoded()
    ensures |Pad(AbcMessage())| == 64 && Decode(Pad(AbcMessage())) == AbcBlock()
  {
    hide WordOf, Pad;
    AbcPadded();
    AbcWords();
  }

  lemma AbcIsKnown()
    ensures Digest(AbcMessage()) == AbcDigest()
  {
    hide Steps, AbcBlock, Pad, Decode, INITIAL;
    AbcDecoded();
    AbcRound4();
    OneBlock(INITIAL, Pad(AbcMessage()));
    AbcSummed();
    AbcWritten();
  }

  lemma AbcSummed()
    ensures Add(W(0x310ade8f), INITIAL.a) == W(0x98500190) && Add(W(0xc08226b3), INITIAL.b) == W(0xb04fd23c)
    ensures Add(W(0xe484b9d8), INITIAL.c) == W(0x7d3f96d6) && Add(W(0x624d8cb2), INITIAL.d) == W(0x727fe128)
  {
  }

  lemma AbcWritten()
    ensures Output(Registers(W(0x98500190), W(0xb04fd23c), W(0x7d3f96d6), W(0x727fe128))) == AbcDigest()
  {
  }

  lemma OneBlock(r: Registers, block: seq<Byte>)
    requires |block| == 64
    ensures Chain(r, block) == Compress(r, block)
  {
    hide Compress;
    assert block[..0] == [] && block[0..] == block;
  }

  /** The streaming implementation on these messages. */
  method KnownAnswers() returns (empty: seq<Byte>, abc: seq<Byte>)
    ensures empty == EmptyDigest() && abc == AbcDigest()
  {
    EmptyIsKnown();
    AbcIsKnown();
    empty := Md5.Calculate(EmptyMessage());
    abc := Md5.Calculate(AbcMessage());
  }
}
