// Appendix A.5 of RFC 1321: two digests of the standard's test suite, followed through the
// definition step by step. They fix what the definition shares with the code: initial
// registers, constants, the order of words and octets, and the output.
module Md5Examples {
  import opened Bytes
  import opened Md5Spec
  import opened Md5Rounds

  function AsWord(n: nat): bv32
    requires n < 0x1_0000_0000
  {
    n as bv32
  }

  // Four octets as a number and as a word.
  lemma WordIs(b: Data, n: nat)
    requires |b| == 4
    requires n == b[0] as nat + 0x100 * b[1] as nat + 0x1_0000 * b[2] as nat + 0x100_0000 * b[3] as nat
    ensures n < 0x1_0000_0000 && Word(b) == AsWord(n)
  {
  }

  // The octets a word of a block is made of.
  lemma WordOf(block: Data, k: nat, a: Byte, b: Byte, c: Byte, d: Byte, n: nat)
    requires |block| == 64 && k < 16
    requires block[4 * k] == a && block[4 * k + 1] == b && block[4 * k + 2] == c && block[4 * k + 3] == d
    requires n == a as nat + 0x100 * b as nat + 0x1_0000 * c as nat + 0x100_0000 * d as nat
    ensures n < 0x1_0000_0000 && Words(block)[k] == AsWord(n)
  {
    hide Word, AsWord;
    var four := block[4 * k..4 * k + 4];
    assert four == [a, b, c, d];
    WordIs(four, n);
  }

  // A block of some octets, zeros, and some more octets.
  lemma Places(head: Data, tail: Data, block: Data, j: nat)
    requires |head| + |tail| <= 64 && block == head + Zeros(64 - |head| - |tail|) + tail && j < 64
    ensures block[j] == if j < |head| then head[j] else if j < 64 - |tail| then 0 else tail[j - 64 + |tail|]
  {
  }

  lemma ZeroWord(head: Data, tail: Data, block: Data, k: nat)
    requires |head| + |tail| <= 64 && block == head + Zeros(64 - |head| - |tail|) + tail
    requires |head| <= 4 * k && 4 * k + 4 <= 64 - |tail|
    ensures Words(block)[k] == 0
  {
    hide Words;
    Places(head, tail, block, 4 * k);
    Places(head, tail, block, 4 * k + 1);
    Places(head, tail, block, 4 * k + 2);
    Places(head, tail, block, 4 * k + 3);
    WordOf(block, k, 0, 0, 0, 0, 0);
  }

  lemma OctetsOf(w: nat, a: Byte, b: Byte, c: Byte, d: Byte)
    requires w == a as nat + 0x100 * b as nat + 0x1_0000 * c as nat + 0x100_0000 * d as nat
    ensures Little(w, 4) == [a, b, c, d]
  {
    hide Little;
    LittleFour(w);
    assert w % 256 == a && w / 256 == b as nat + 0x100 * c as nat + 0x1_0000 * d as nat;
    assert w / 256 % 256 == b && w / 256 / 256 == c as nat + 0x100 * d as nat;
  }

  // The low-order octet of register a comes first: the octets of section 3.3.
  lemma OutputOrder()
    ensures Output(INIT) == [0x01, 0x23, 0x45, 0x67, 0x89, 0xab, 0xcd, 0xef,
                             0xfe, 0xdc, 0xba, 0x98, 0x76, 0x54, 0x32, 0x10]
  {
    hide Little;
    OctetsOf(0x67452301, 0x01, 0x23, 0x45, 0x67);
    OctetsOf(0xefcdab89, 0x89, 0xab, 0xcd, 0xef);
    OctetsOf(0x98badcfe, 0xfe, 0xdc, 0xba, 0x98);
    OctetsOf(0x10325476, 0x76, 0x54, 0x32, 0x10);
  }

  lemma StepsFrom(r: Regs, x: seq<bv32>)
    requires |x| == 16
    ensures Steps(r, x, 0) == r
  {
  }

  lemma OneBlock(r: Regs, block: Data)
    requires |block| == 64
    ensures Blocks(r, block) == Compress(r, Words(block))
  {
    hide Compress, Words, Blocks;
    BlocksStep(r, block);
    BlocksStep(Compress(r, Words(block)), []);
    assert block[..64] == block && block[64..] == [];
  }

  // ---- MD5 ("") = d41d8cd98f00b204e9800998ecf8427e ----

  predicate EmptyWords(x: seq<bv32>) {
    |x| == 16
    && x[0] == 0x00000080 && x[1] == 0 && x[2] == 0 && x[3] == 0
    && x[4] == 0 && x[5] == 0 && x[6] == 0 && x[7] == 0
    && x[8] == 0 && x[9] == 0 && x[10] == 0 && x[11] == 0
    && x[12] == 0 && x[13] == 0 && x[14] == 0 && x[15] == 0
  }

  lemma EmptyOps1()
    ensures Op(0x67452301, FF(0xefcdab89, 0x98badcfe, 0x10325476), 0x00000080, 0xd76aa478, 7, 0xefcdab89) == 0xa5202774
    ensures Op(0x10325476, FF(0xa5202774, 0xefcdab89, 0x98badcfe), 0, 0xe8c7b756, 12, 0xa5202774) == 0xf59592dd
    ensures Op(0x98badcfe, FF(0xf59592dd, 0xa5202774, 0xefcdab89), 0, 0x242070db, 17, 0xf59592dd) == 0xe7f06b23
    ensures Op(0xefcdab89, FF(0xe7f06b23, 0xf59592dd, 0xa5202774), 0, 0xc1bdceee, 22, 0xe7f06b23) == 0x1b163203
    ensures Op(0xa5202774, FF(0x1b163203, 0xe7f06b23, 0xf59592dd), 0, 0xf57c0faf, 7, 0x1b163203) == 0x32033344
    ensures Op(0xf59592dd, FF(0x32033344, 0x1b163203, 0xe7f06b23), 0, 0x4787c62a, 12, 0x32033344) == 0x2f35d494
    ensures Op(0xe7f06b23, FF(0x2f35d494, 0x32033344, 0x1b163203), 0, 0xa8304613, 17, 0x2f35d494) == 0xf5b158db
    ensures Op(0x1b163203, FF(0xf5b158db, 0x2f35d494, 0x32033344), 0, 0xfd469501, 22, 0xf5b158db) == 0x9bc13ce9
    ensures Op(0x32033344, FF(0x9bc13ce9, 0xf5b158db, 0x2f35d494), 0, 0x698098d8, 7, 0x9bc13ce9) == 0x3893b991
    ensures Op(0x2f35d494, FF(0x3893b991, 0x9bc13ce9, 0xf5b158db), 0, 0x8b44f7af, 12, 0x3893b991) == 0xfce4a312
    ensures Op(0xf5b158db, FF(0xfce4a312, 0x3893b991, 0x9bc13ce9), 0, 0xffff5bb1, 17, 0xfce4a312) == 0xe1ef0576
    ensures Op(0x9bc13ce9, FF(0xe1ef0576, 0xfce4a312, 0x3893b991), 0, 0x895cd7be, 22, 0xe1ef0576) == 0x70768a29
    ensures Op(0x3893b991, FF(0x70768a29, 0xe1ef0576, 0xfce4a312), 0, 0x6b901122, 7, 0x70768a29) == 0xf56c7cf1
    ensures Op(0xfce4a312, FF(0xf56c7cf1, 0x70768a29, 0xe1ef0576), 0, 0xfd987193, 12, 0xf56c7cf1) == 0x374943a7
    ensures Op(0xe1ef0576, FF(0x374943a7, 0xf56c7cf1, 0x70768a29), 0, 0xa679438e, 17, 0x374943a7) == 0x5aa53f75
    ensures Op(0x70768a29, FF(0x5aa53f75, 0x374943a7, 0xf56c7cf1), 0, 0x49b40821, 22, 0x5aa53f75) == 0xd6819c6a
  {
  }

  lemma EmptyOps2()
    ensures Op(0xf56c7cf1, FG(0xd6819c6a, 0x5aa53f75, 0x374943a7), 0, 0xf61e2562, 5, 0xd6819c6a) == 0x1c7d7513
    ensures Op(0x374943a7, FG(0x1c7d7513, 0xd6819c6a, 0x5aa53f75), 0, 0xc040b340, 9, 0x1c7d7513) == 0x7bd57a3a
    ensures Op(0x5aa53f75, FG(0x7bd57a3a, 0x1c7d7513, 0xd6819c6a), 0, 0x265e5a51, 14, 0x7bd57a3a) == 0xc095f13a
    ensures Op(0xd6819c6a, FG(0xc095f13a, 0x7bd57a3a, 0x1c7d7513), 0x00000080, 0xe9b6c7aa, 20, 0xc095f13a) == 0xbd782e17
    ensures Op(0x1c7d7513, FG(0xbd782e17, 0xc095f13a, 0x7bd57a3a), 0, 0xd62f105d, 5, 0xbd782e17) == 0x3d1e3e6c
    ensures Op(0x7bd57a3a, FG(0x3d1e3e6c, 0xbd782e17, 0xc095f13a), 0, 0x02441453, 9, 0x3d1e3e6c) == 0x68b7b3e3
    ensures Op(0xc095f13a, FG(0x68b7b3e3, 0x3d1e3e6c, 0xbd782e17), 0, 0xd8a1e681, 14, 0x68b7b3e3) == 0xeb41643e
    ensures Op(0xbd782e17, FG(0xeb41643e, 0x68b7b3e3, 0x3d1e3e6c), 0, 0xe7d3fbc8, 20, 0xeb41643e) == 0xe422531a
    ensures Op(0x3d1e3e6c, FG(0xe422531a, 0xeb41643e, 0x68b7b3e3), 0, 0x21e1cde6, 5, 0xe422531a) == 0x306ec122
    ensures Op(0x68b7b3e3, FG(0x306ec122, 0xe422531a, 0xeb41643e), 0, 0xc33707d6, 9, 0x306ec122) == 0xd28c77c2
    ensures Op(0xeb41643e, FG(0xd28c77c2, 0x306ec122, 0xe422531a), 0, 0xf4d50d87, 14, 0xd28c77c2) == 0xa3c663da
    ensures Op(0xe422531a, FG(0xa3c663da, 0xd28c77c2, 0x306ec122), 0, 0x455a14ed, 20, 0xa3c663da) == 0xa0572807
    ensures Op(0x306ec122, FG(0xa0572807, 0xa3c663da, 0xd28c77c2), 0, 0xa9e3e905, 5, 0xa0572807) == 0x13707036
    ensures Op(0xd28c77c2, FG(0x13707036, 0xa0572807, 0xa3c663da), 0, 0xfcefa3f8, 9, 0x13707036) == 0xae7813db
    ensures Op(0xa3c663da, FG(0xae7813db, 0x13707036, 0xa0572807), 0, 0x676f02d9, 14, 0xae7813db) == 0x1c31c384
    ensures Op(0xa0572807, FG(0x1c31c384, 0xae7813db, 0x13707036), 0, 0x8d2a4c8a, 20, 0x1c31c384) == 0xa2205f1f
  {
  }

  lemma EmptyOps3()
    ensures Op(0x13707036, FH(0xa2205f1f, 0x1c31c384, 0xae7813db), 0, 0xfffa3942, 4, 0xa2205f1f) == 0xdf63eaa1
    ensures Op(0xae7813db, FH(0xdf63eaa1, 0xa2205f1f, 0x1c31c384), 0, 0x8771f681, 11, 0xdf63eaa1) == 0xc3689f5b
    ensures Op(0x1c31c384, FH(0xc3689f5b, 0xdf63eaa1, 0xa2205f1f), 0, 0x6d9d6122, 16, 0xc3689f5b) == 0x12f3e755
    ensures Op(0xa2205f1f, FH(0x12f3e755, 0xc3689f5b, 0xdf63eaa1), 0, 0xfde5380c, 23, 0x12f3e755) == 0x004b6669
    ensures Op(0xdf63eaa1, FH(0x004b6669, 0x12f3e755, 0xc3689f5b), 0, 0xa4beea44, 4, 0x004b6669) == 0x5f7a9b2e
    ensures Op(0xc3689f5b, FH(0x5f7a9b2e, 0x004b6669, 0x12f3e755), 0, 0x4bdecfa9, 11, 0x5f7a9b2e) == 0xabc34e16
    ensures Op(0x12f3e755, FH(0xabc34e16, 0x5f7a9b2e, 0x004b6669), 0, 0xf6bb4b60, 16, 0xabc34e16) == 0x91ca4cb7
    ensures Op(0x004b6669, FH(0x91ca4cb7, 0xabc34e16, 0x5f7a9b2e), 0, 0xbebfbc70, 23, 0x91ca4cb7) == 0xc5dc8c15
    ensures Op(0x5f7a9b2e, FH(0xc5dc8c15, 0x91ca4cb7, 0xabc34e16), 0, 0x289b7ec6, 4, 0xc5dc8c15) == 0x4497169d
    ensures Op(0xabc34e16, FH(0x4497169d, 0xc5dc8c15, 0x91ca4cb7), 0x00000080, 0xeaa127fa, 11, 0x4497169d) == 0x76fd93d4
    ensures Op(0x91ca4cb7, FH(0x76fd93d4, 0x4497169d, 0xc5dc8c15), 0, 0xd4ef3085, 16, 0x76fd93d4) == 0xfd95f243
    ensures Op(0xc5dc8c15, FH(0xfd95f243, 0x76fd93d4, 0x4497169d), 0, 0x04881d05, 23, 0xfd95f243) == 0x0fe32453
    ensures Op(0x4497169d, FH(0x0fe32453, 0xfd95f243, 0x76fd93d4), 0, 0xd9d4d039, 4, 0x0fe32453) == 0x3f55edfd
    ensures Op(0x76fd93d4, FH(0x3f55edfd, 0x0fe32453, 0xfd95f243), 0, 0xe6db99e5, 11, 0x3f55edfd) == 0x22a31f54
    ensures Op(0xfd95f243, FH(0x22a31f54, 0x3f55edfd, 0x0fe32453), 0, 0x1fa27cf8, 16, 0x22a31f54) == 0x68d84ea2
    ensures Op(0x0fe32453, FH(0x68d84ea2, 0x22a31f54, 0x3f55edfd), 0, 0xc4ac5665, 23, 0x68d84ea2) == 0xca7d2dbd
  {
  }

  lemma EmptyOps4()
    ensures Op(0x3f55edfd, FI(0xca7d2dbd, 0x68d84ea2, 0x22a31f54), 0x00000080, 0xf4292244, 6, 0xca7d2dbd) == 0x93aa2577
    ensures Op(0x22a31f54, FI(0x93aa2577, 0xca7d2dbd, 0x68d84ea2), 0, 0x432aff97, 10, 0x93aa2577) == 0x1688dc85
    ensures Op(0x68d84ea2, FI(0x1688dc85, 0x93aa2577, 0xca7d2dbd), 0, 0xab9423a7, 15, 0x1688dc85) == 0xcd85b8cb
    ensures Op(0xca7d2dbd, FI(0xcd85b8cb, 0x1688dc85, 0x93aa2577), 0, 0xfc93a039, 21, 0xcd85b8cb) == 0x561e0689
    ensures Op(0x93aa2577, FI(0x561e0689, 0xcd85b8cb, 0x1688dc85), 0, 0x655b59c3, 6, 0x561e0689) == 0x5625a114
    ensures Op(0x1688dc85, FI(0x5625a114, 0x561e0689, 0xcd85b8cb), 0, 0x8f0ccc92, 10, 0x5625a114) == 0x3450f42b
    ensures Op(0xcd85b8cb, FI(0x3450f42b, 0x5625a114, 0x561e0689), 0, 0xffeff47d, 15, 0x3450f42b) == 0x392ad0d0
    ensures Op(0x561e0689, FI(0x392ad0d0, 0x3450f42b, 0x5625a114), 0, 0x85845dd1, 21, 0x392ad0d0) == 0x1e77fa61
    ensures Op(0x5625a114, FI(0x1e77fa61, 0x392ad0d0, 0x3450f42b), 0, 0x6fa87e4f, 6, 0x1e77fa61) == 0x474a9c8c
    ensures Op(0x3450f42b, FI(0x474a9c8c, 0x1e77fa61, 0x392ad0d0), 0, 0xfe2ce6e0, 10, 0x474a9c8c) == 0xdfce00bc
    ensures Op(0x392ad0d0, FI(0xdfce00bc, 0x474a9c8c, 0x1e77fa61), 0, 0xa3014314, 15, 0xdfce00bc) == 0x36594b14
    ensures Op(0x1e77fa61, FI(0x36594b14, 0xdfce00bc, 0x474a9c8c), 0, 0x4e0811a1, 21, 0x36594b14) == 0x30130182
    ensures Op(0x474a9c8c, FI(0x30130182, 0x36594b14, 0xdfce00bc), 0, 0xf7537e82, 6, 0x30130182) == 0x7246fad3
    ensures Op(0xdfce00bc, FI(0x7246fad3, 0x30130182, 0x36594b14), 0, 0xbd3af235, 10, 0x7246fad3) == 0x6e10a476
    ensures Op(0x36594b14, FI(0x6e10a476, 0x7246fad3, 0x30130182), 0, 0x2ad7d2bb, 15, 0x6e10a476) == 0xff4ea3eb
    ensures Op(0x30130182, FI(0xff4ea3eb, 0x6e10a476, 0x7246fad3), 0, 0xeb86d391, 21, 0xff4ea3eb) == 0x14e45506
  {
  }

  lemma EmptyRound1(x: seq<bv32>)
    requires EmptyWords(x)
    ensures Steps(INIT, x, 16) == Regs(0xf56c7cf1, 0xd6819c6a, 0x5aa53f75, 0x374943a7)
  {
    hide Op, FF, FG, FH, FI, Steps, T, Index, Shift;
    var r := INIT;
    Constants1();
    EmptyOps1();
    StepsFrom(r, x);
    Quad(r, x, 0, 0x67452301, 0xefcdab89, 0x98badcfe, 0x10325476,
         0xa5202774, 0x1b163203, 0xe7f06b23, 0xf59592dd);
    Quad(r, x, 4, 0xa5202774, 0x1b163203, 0xe7f06b23, 0xf59592dd,
         0x32033344, 0x9bc13ce9, 0xf5b158db, 0x2f35d494);
    Quad(r, x, 8, 0x32033344, 0x9bc13ce9, 0xf5b158db, 0x2f35d494,
         0x3893b991, 0x70768a29, 0xe1ef0576, 0xfce4a312);
    Quad(r, x, 12, 0x3893b991, 0x70768a29, 0xe1ef0576, 0xfce4a312,
         0xf56c7cf1, 0xd6819c6a, 0x5aa53f75, 0x374943a7);
  }

  lemma EmptyRound2(x: seq<bv32>)
    requires EmptyWords(x)
    requires Steps(INIT, x, 16) == Regs(0xf56c7cf1, 0xd6819c6a, 0x5aa53f75, 0x374943a7)
    ensures Steps(INIT, x, 32) == Regs(0x13707036, 0xa2205f1f, 0x1c31c384, 0xae7813db)
  {
    hide Op, FF, FG, FH, FI, Steps, T, Index, Shift;
    var r := INIT;
    Constants2();
    EmptyOps2();
    Quad(r, x, 16, 0xf56c7cf1, 0xd6819c6a, 0x5aa53f75, 0x374943a7,
         0x1c7d7513, 0xbd782e17, 0xc095f13a, 0x7bd57a3a);
    Quad(r, x, 20, 0x1c7d7513, 0xbd782e17, 0xc095f13a, 0x7bd57a3a,
         0x3d1e3e6c, 0xe422531a, 0xeb41643e, 0x68b7b3e3);
    Quad(r, x, 24, 0x3d1e3e6c, 0xe422531a, 0xeb41643e, 0x68b7b3e3,
         0x306ec122, 0xa0572807, 0xa3c663da, 0xd28c77c2);
    Quad(r, x, 28, 0x306ec122, 0xa0572807, 0xa3c663da, 0xd28c77c2,
         0x13707036, 0xa2205f1f, 0x1c31c384, 0xae7813db);
  }

  lemma EmptyRound3(x: seq<bv32>)
    requires EmptyWords(x)
    requires Steps(INIT, x, 32) == Regs(0x13707036, 0xa2205f1f, 0x1c31c384, 0xae7813db)
    ensures Steps(INIT, x, 48) == Regs(0x3f55edfd, 0xca7d2dbd, 0x68d84ea2, 0x22a31f54)
  {
    hide Op, FF, FG, FH, FI, Steps, T, Index, Shift;
    var r := INIT;
    Constants3();
    EmptyOps3();
    Quad(r, x, 32, 0x13707036, 0xa2205f1f, 0x1c31c384, 0xae7813db,
         0xdf63eaa1, 0x004b6669, 0x12f3e755, 0xc3689f5b);
    Quad(r, x, 36, 0xdf63eaa1, 0x004b6669, 0x12f3e755, 0xc3689f5b,
         0x5f7a9b2e, 0xc5dc8c15, 0x91ca4cb7, 0xabc34e16);
    Quad(r, x, 40, 0x5f7a9b2e, 0xc5dc8c15, 0x91ca4cb7, 0xabc34e16,
         0x4497169d, 0x0fe32453, 0xfd95f243, 0x76fd93d4);
    Quad(r, x, 44, 0x4497169d, 0x0fe32453, 0xfd95f243, 0x76fd93d4,
         0x3f55edfd, 0xca7d2dbd, 0x68d84ea2, 0x22a31f54);
  }

  lemma EmptyRound4(x: seq<bv32>)
    requires EmptyWords(x)
    requires Steps(INIT, x, 48) == Regs(0x3f55edfd, 0xca7d2dbd, 0x68d84ea2, 0x22a31f54)
    ensures Steps(INIT, x, 64) == Regs(0x7246fad3, 0x14e45506, 0xff4ea3eb, 0x6e10a476)
  {
    hide Op, FF, FG, FH, FI, Steps, T, Index, Shift;
    var r := INIT;
    Constants4();
    EmptyOps4();
    Quad(r, x, 48, 0x3f55edfd, 0xca7d2dbd, 0x68d84ea2, 0x22a31f54,
         0x93aa2577, 0x561e0689, 0xcd85b8cb, 0x1688dc85);
    Quad(r, x, 52, 0x93aa2577, 0x561e0689, 0xcd85b8cb, 0x1688dc85,
         0x5625a114, 0x1e77fa61, 0x392ad0d0, 0x3450f42b);
    Quad(r, x, 56, 0x5625a114, 0x1e77fa61, 0x392ad0d0, 0x3450f42b,
         0x474a9c8c, 0x30130182, 0x36594b14, 0xdfce00bc);
    Quad(r, x, 60, 0x474a9c8c, 0x30130182, 0x36594b14, 0xdfce00bc,
         0x7246fad3, 0x14e45506, 0xff4ea3eb, 0x6e10a476);
  }

  lemma EmptySums()
    ensures Plus(0x7246fad3, 0x67452301) == 0xd98c1dd4
    ensures Plus(0x14e45506, 0xefcdab89) == 0x04b2008f
    ensures Plus(0xff4ea3eb, 0x98badcfe) == 0x980980e9
    ensures Plus(0x6e10a476, 0x10325476) == 0x7e42f8ec
  {
  }

  lemma EmptyCompress(x: seq<bv32>)
    requires EmptyWords(x)
    ensures Compress(INIT, x) == Regs(0xd98c1dd4, 0x04b2008f, 0x980980e9, 0x7e42f8ec)
  {
    hide Steps, Plus;
    EmptyRound1(x);
    EmptyRound2(x);
    EmptyRound3(x);
    EmptyRound4(x);
    EmptySums();
  }

  lemma EmptyPadding()
    ensures Padding(0) == [0x80] + Zeros(55) + [0, 0, 0, 0, 0, 0, 0, 0]
  {
    hide Little;
    LittlePair(0, 0);
    OctetsOf(0, 0, 0, 0, 0);
    OctetsOf(0, 0, 0, 0, 0);
  }

  lemma EmptyNumbers()
    ensures AsWord(0) == 0
    ensures AsWord(0x00000080) == 0x00000080
  {
  }

  lemma EmptyEdges(block: Data)
    requires block == [0x80] + Zeros(55) + [0, 0, 0, 0, 0, 0, 0, 0]
    ensures |block| == 64
    ensures Words(block)[0] == 0x00000080
    ensures Words(block)[14] == 0
    ensures Words(block)[15] == 0
  {
    hide Words, AsWord;
    EmptyNumbers();
    var head: Data, tail: Data := [0x80], [0, 0, 0, 0, 0, 0, 0, 0];
    Places(head, tail, block, 0);
    Places(head, tail, block, 1);
    Places(head, tail, block, 2);
    Places(head, tail, block, 3);
    WordOf(block, 0, 0x80, 0, 0, 0, 0x00000080);
    Places(head, tail, block, 56);
    Places(head, tail, block, 57);
    Places(head, tail, block, 58);
    Places(head, tail, block, 59);
    WordOf(block, 14, 0, 0, 0, 0, 0);
    Places(head, tail, block, 60);
    Places(head, tail, block, 61);
    Places(head, tail, block, 62);
    Places(head, tail, block, 63);
    WordOf(block, 15, 0, 0, 0, 0, 0);
  }

  lemma EmptyBlock(block: Data)
    requires block == [0x80] + Zeros(55) + [0, 0, 0, 0, 0, 0, 0, 0]
    ensures |block| == 64 && EmptyWords(Words(block))
  {
    hide Words;
    EmptyEdges(block);
    var head: Data, tail: Data := [0x80], [0, 0, 0, 0, 0, 0, 0, 0];
    ZeroWord(head, tail, block, 1);
    ZeroWord(head, tail, block, 2);
    ZeroWord(head, tail, block, 3);
    ZeroWord(head, tail, block, 4);
    ZeroWord(head, tail, block, 5);
    ZeroWord(head, tail, block, 6);
    ZeroWord(head, tail, block, 7);
    ZeroWord(head, tail, block, 8);
    ZeroWord(head, tail, block, 9);
    ZeroWord(head, tail, block, 10);
    ZeroWord(head, tail, block, 11);
    ZeroWord(head, tail, block, 12);
    ZeroWord(head, tail, block, 13);
  }

  lemma EmptyOutput()
    ensures Output(Regs(0xd98c1dd4, 0x04b2008f, 0x980980e9, 0x7e42f8ec)) ==
      [0xd4, 0x1d, 0x8c, 0xd9, 0x8f, 0x00, 0xb2, 0x04,
       0xe9, 0x80, 0x09, 0x98, 0xec, 0xf8, 0x42, 0x7e]
  {
    hide Little;
    OctetsOf(0xd98c1dd4, 0xd4, 0x1d, 0x8c, 0xd9);
    OctetsOf(0x04b2008f, 0x8f, 0x00, 0xb2, 0x04);
    OctetsOf(0x980980e9, 0xe9, 0x80, 0x09, 0x98);
    OctetsOf(0x7e42f8ec, 0xec, 0xf8, 0x42, 0x7e);
  }

  // MD5 ("") = d41d8cd98f00b204e9800998ecf8427e
  lemma DigestEmpty()
    ensures MD5([]) ==
      [0xd4, 0x1d, 0x8c, 0xd9, 0x8f, 0x00, 0xb2, 0x04,
       0xe9, 0x80, 0x09, 0x98, 0xec, 0xf8, 0x42, 0x7e]
  {
    hide Output, Padding, Compress, Words, Blocks;
    var whole := [] + Padding(0);
    EmptyPadding();
    assert whole == [0x80] + Zeros(55) + [0, 0, 0, 0, 0, 0, 0, 0];
    EmptyBlock(whole);
    EmptyCompress(Words(whole));
    OneBlock(INIT, whole);
    EmptyOutput();
  }

  // ---- MD5 ("abc") = 900150983cd24fb0d6963f7d28e17f72 ----

  predicate AbcWords(x: seq<bv32>) {
    |x| == 16
    && x[0] == 0x80636261 && x[1] == 0 && x[2] == 0 && x[3] == 0
    && x[4] == 0 && x[5] == 0 && x[6] == 0 && x[7] == 0
    && x[8] == 0 && x[9] == 0 && x[10] == 0 && x[11] == 0
    && x[12] == 0 && x[13] == 0 && x[14] == 0x00000018 && x[15] == 0
  }

  lemma AbcOps1()
    ensures Op(0x67452301, FF(0xefcdab89, 0x98badcfe, 0x10325476), 0x80636261, 0xd76aa478, 7, 0xefcdab89) == 0xd6d117b4
    ensures Op(0x10325476, FF(0xd6d117b4, 0xefcdab89, 0x98badcfe), 0, 0xe8c7b756, 12, 0xd6d117b4) == 0x344a8432
    ensures Op(0x98badcfe, FF(0x344a8432, 0xd6d117b4, 0xefcdab89), 0, 0x242070db, 17, 0x344a8432) == 0x2f6fbd72
    ensures Op(0xefcdab89, FF(0x2f6fbd72, 0x344a8432, 0xd6d117b4), 0, 0xc1bdceee, 22, 0x2f6fbd72) == 0x7ad956f2
    ensures Op(0xd6d117b4, FF(0x7ad956f2, 0x2f6fbd72, 0x344a8432), 0, 0xf57c0faf, 7, 0x7ad956f2) == 0xc73741ef
    ensures Op(0x344a8432, FF(0xc73741ef, 0x7ad956f2, 0x2f6fbd72), 0, 0x4787c62a, 12, 0xc73741ef) == 0x8bac3051
    ensures Op(0x2f6fbd72, FF(0x8bac3051, 0xc73741ef, 0x7ad956f2), 0, 0xa8304613, 17, 0x8bac3051) == 0x207dc67b
    ensures Op(0x7ad956f2, FF(0x207dc67b, 0x8bac3051, 0xc73741ef), 0, 0xfd469501, 22, 0x207dc67b) == 0x928d99f6
    ensures Op(0xc73741ef, FF(0x928d99f6, 0x207dc67b, 0x8bac3051), 0, 0x698098d8, 7, 0x928d99f6) == 0x854b3712
    ensures Op(0x8bac3051, FF(0x854b3712, 0x928d99f6, 0x207dc67b), 0, 0x8b44f7af, 12, 0x854b3712) == 0x74e2f284
    ensures Op(0x207dc67b, FF(0x74e2f284, 0x854b3712, 0x928d99f6), 0, 0xffff5bb1, 17, 0x74e2f284) == 0x3020401c
    ensures Op(0x928d99f6, FF(0x3020401c, 0x74e2f284, 0x854b3712), 0, 0x895cd7be, 22, 0x3020401c) == 0x5ed49596
    ensures Op(0x854b3712, FF(0x5ed49596, 0x3020401c, 0x74e2f284), 0, 0x6b901122, 7, 0x5ed49596) == 0xdda9b9a6
    ensures Op(0x74e2f284, FF(0xdda9b9a6, 0x5ed49596, 0x3020401c), 0, 0xfd987193, 12, 0xdda9b9a6) == 0xa1051895
    ensures Op(0x3020401c, FF(0xa1051895, 0xdda9b9a6, 0x5ed49596), 0x00000018, 0xa679438e, 17, 0xa1051895) == 0xe396856b
    ensures Op(0x5ed49596, FF(0xe396856b, 0xa1051895, 0xdda9b9a6), 0, 0x49b40821, 22, 0xe396856b) == 0x72aff2e0
  {
  }

  lemma AbcOps2()
    ensures Op(0xdda9b9a6, FG(0x72aff2e0, 0xe396856b, 0xa1051895), 0, 0xf61e2562, 5, 0x72aff2e0) == 0x3e9e9126
    ensures Op(0xa1051895, FG(0x3e9e9126, 0x72aff2e0, 0xe396856b), 0, 0xc040b340, 9, 0x3e9e9126) == 0x4a1d804e
    ensures Op(0xe396856b, FG(0x4a1d804e, 0x3e9e9126, 0x72aff2e0), 0, 0x265e5a51, 14, 0x4a1d804e) == 0xe25e1652
    ensures Op(0x72aff2e0, FG(0xe25e1652, 0x4a1d804e, 0x3e9e9126), 0x80636261, 0xe9b6c7aa, 20, 0xe25e1652) == 0xb5b204e4
    ensures Op(0x3e9e9126, FG(0xb5b204e4, 0xe25e1652, 0x4a1d804e), 0, 0xd62f105d, 5, 0xb5b204e4) == 0x59a8ffda
    ensures Op(0x4a1d804e, FG(0x59a8ffda, 0xb5b204e4, 0xe25e1652), 0, 0x02441453, 9, 0x59a8ffda) == 0x6d002f1e
    ensures Op(0xe25e1652, FG(0x6d002f1e, 0x59a8ffda, 0xb5b204e4), 0, 0xd8a1e681, 14, 0x6d002f1e) == 0xabfc7920
    ensures Op(0xb5b204e4, FG(0xabfc7920, 0x6d002f1e, 0x59a8ffda), 0, 0xe7d3fbc8, 20, 0xabfc7920) == 0x47092c07
    ensures Op(0x59a8ffda, FG(0x47092c07, 0xabfc7920, 0x6d002f1e), 0, 0x21e1cde6, 5, 0x47092c07) == 0xb7f268cf
    ensures Op(0x6d002f1e, FG(0xb7f268cf, 0x47092c07, 0xabfc7920), 0x00000018, 0xc33707d6, 9, 0xb7f268cf) == 0x09388eff
    ensures Op(0xabfc7920, FG(0x09388eff, 0xb7f268cf, 0x47092c07), 0, 0xf4d50d87, 14, 0x09388eff) == 0xfe1623b1
    ensures Op(0x47092c07, FG(0xfe1623b1, 0x09388eff, 0xb7f268cf), 0, 0x455a14ed, 20, 0xfe1623b1) == 0x786acb8f
    ensures Op(0xb7f268cf, FG(0x786acb8f, 0xfe1623b1, 0x09388eff), 0, 0xa9e3e905, 5, 0x786acb8f) == 0x790a77fb
    ensures Op(0x09388eff, FG(0x790a77fb, 0x786acb8f, 0xfe1623b1), 0, 0xfcefa3f8, 9, 0x790a77fb) == 0x9f47e4f8
    ensures Op(0xfe1623b1, FG(0x9f47e4f8, 0x790a77fb, 0x786acb8f), 0, 0x676f02d9, 14, 0x9f47e4f8) == 0xa62884aa
    ensures Op(0x786acb8f, FG(0xa62884aa, 0x9f47e4f8, 0x790a77fb), 0, 0x8d2a4c8a, 20, 0xa62884aa) == 0x726342d3
  {
  }

  lemma AbcOps3()
    ensures Op(0x790a77fb, FH(0x726342d3, 0xa62884aa, 0x9f47e4f8), 0, 0xfffa3942, 4, 0x726342d3) == 0xb3707ebf
    ensures Op(0x9f47e4f8, FH(0xb3707ebf, 0x726342d3, 0xa62884aa), 0, 0x8771f681, 11, 0xb3707ebf) == 0x60127b2e
    ensures Op(0xa62884aa, FH(0x60127b2e, 0xb3707ebf, 0x726342d3), 0, 0x6d9d6122, 16, 0x60127b2e) == 0x8d212ff5
    ensures Op(0x726342d3, FH(0x8d212ff5, 0x60127b2e, 0xb3707ebf), 0x00000018, 0xfde5380c, 23, 0x8d212ff5) == 0x3b0875c7
    ensures Op(0xb3707ebf, FH(0x3b0875c7, 0x8d212ff5, 0x60127b2e), 0, 0xa4beea44, 4, 0x3b0875c7) == 0x21b117b9
    ensures Op(0x60127b2e, FH(0x21b117b9, 0x3b0875c7, 0x8d212ff5), 0, 0x4bdecfa9, 11, 0x21b117b9) == 0x6e7429d5
    ensures Op(0x8d212ff5, FH(0x6e7429d5, 0x21b117b9, 0x3b0875c7), 0, 0xf6bb4b60, 16, 0x6e7429d5) == 0x3575227e
    ensures Op(0x3b0875c7, FH(0x3575227e, 0x6e7429d5, 0x21b117b9), 0, 0xbebfbc70, 23, 0x3575227e) == 0x5a2f5ea5
    ensures Op(0x21b117b9, FH(0x5a2f5ea5, 0x3575227e, 0x6e7429d5), 0, 0x289b7ec6, 4, 0x5a2f5ea5) == 0x11de1779
    ensures Op(0x6e7429d5, FH(0x11de1779, 0x5a2f5ea5, 0x3575227e), 0x80636261, 0xeaa127fa, 11, 0x11de1779) == 0xfadcaa38
    ensures Op(0x3575227e, FH(0xfadcaa38, 0x11de1779, 0x5a2f5ea5), 0, 0xd4ef3085, 16, 0xfadcaa38) == 0x31c465ca
    ensures Op(0x5a2f5ea5, FH(0x31c465ca, 0xfadcaa38, 0x11de1779), 0, 0x04881d05, 23, 0x31c465ca) == 0x4c6124f4
    ensures Op(0x11de1779, FH(0x4c6124f4, 0x31c465ca, 0xfadcaa38), 0, 0xd9d4d039, 4, 0x4c6124f4) == 0x7f2e507b
    ensures Op(0xfadcaa38, FH(0x7f2e507b, 0x4c6124f4, 0x31c465ca), 0, 0xe6db99e5, 11, 0x7f2e507b) == 0x99d9679d
    ensures Op(0x31c465ca, FH(0x99d9679d, 0x7f2e507b, 0x4c6124f4), 0, 0x1fa27cf8, 16, 0x99d9679d) == 0x8fae6399
    ensures Op(0x4c6124f4, FH(0x8fae6399, 0x99d9679d, 0x7f2e507b), 0, 0xc4ac5665, 23, 0x8fae6399) == 0x7beb9700
  {
  }

  lemma AbcOps4()
    ensures Op(0x7f2e507b, FI(0x7beb9700, 0x8fae6399, 0x99d9679d), 0x80636261, 0xf4292244, 6, 0x7beb9700) == 0x7b201df8
    ensures Op(0x99d9679d, FI(0x7b201df8, 0x7beb9700, 0x8fae6399), 0, 0x432aff97, 10, 0x7b201df8) == 0xf4e8e96e
    ensures Op(0x8fae6399, FI(0xf4e8e96e, 0x7b201df8, 0x7beb9700), 0x00000018, 0xab9423a7, 15, 0xf4e8e96e) == 0xb298cefd
    ensures Op(0x7beb9700, FI(0xb298cefd, 0xf4e8e96e, 0x7b201df8), 0, 0xfc93a039, 21, 0xb298cefd) == 0x8bf025c4
    ensures Op(0x7b201df8, FI(0x8bf025c4, 0xb298cefd, 0xf4e8e96e), 0, 0x655b59c3, 6, 0x8bf025c4) == 0x06cc5e8a
    ensures Op(0xf4e8e96e, FI(0x06cc5e8a, 0x8bf025c4, 0xb298cefd), 0, 0x8f0ccc92, 10, 0x06cc5e8a) == 0x5b0d97aa
    ensures Op(0xb298cefd, FI(0x5b0d97aa, 0x06cc5e8a, 0x8bf025c4), 0, 0xffeff47d, 15, 0x5b0d97aa) == 0x7d632dd0
    ensures Op(0x8bf025c4, FI(0x7d632dd0, 0x5b0d97aa, 0x06cc5e8a), 0, 0x85845dd1, 21, 0x7d632dd0) == 0x3bfa2c27
    ensures Op(0x06cc5e8a, FI(0x3bfa2c27, 0x7d632dd0, 0x5b0d97aa), 0, 0x6fa87e4f, 6, 0x3bfa2c27) == 0x7f81cc35
    ensures Op(0x5b0d97aa, FI(0x7f81cc35, 0x3bfa2c27, 0x7d632dd0), 0, 0xfe2ce6e0, 10, 0x7f81cc35) == 0x094454ab
    ensures Op(0x7d632dd0, FI(0x094454ab, 0x7f81cc35, 0x3bfa2c27), 0, 0xa3014314, 15, 0x094454ab) == 0x4f9dbe3f
    ensures Op(0x3bfa2c27, FI(0x4f9dbe3f, 0x094454ab, 0x7f81cc35), 0, 0x4e0811a1, 21, 0x4f9dbe3f) == 0x7327d604
    ensures Op(0x7f81cc35, FI(0x7327d604, 0x4f9dbe3f, 0x094454ab), 0, 0xf7537e82, 6, 0x7327d604) == 0x310ade8f
    ensures Op(0x094454ab, FI(0x310ade8f, 0x7327d604, 0x4f9dbe3f), 0, 0xbd3af235, 10, 0x310ade8f) == 0x624d8cb2
    ensures Op(0x4f9dbe3f, FI(0x624d8cb2, 0x310ade8f, 0x7327d604), 0, 0x2ad7d2bb, 15, 0x624d8cb2) == 0xe484b9d8
    ensures Op(0x7327d604, FI(0xe484b9d8, 0x624d8cb2, 0x310ade8f), 0, 0xeb86d391, 21, 0xe484b9d8) == 0xc08226b3
  {
  }

  lemma AbcRound1(x: seq<bv32>)
    requires AbcWords(x)
    ensures Steps(INIT, x, 16) == Regs(0xdda9b9a6, 0x72aff2e0, 0xe396856b, 0xa1051895)
  {
    hide Op, FF, FG, FH, FI, Steps, T, Index, Shift;
    var r := INIT;
    Constants1();
    AbcOps1();
    StepsFrom(r, x);
    Quad(r, x, 0, 0x67452301, 0xefcdab89, 0x98badcfe, 0x10325476,
         0xd6d117b4, 0x7ad956f2, 0x2f6fbd72, 0x344a8432);
    Quad(r, x, 4, 0xd6d117b4, 0x7ad956f2, 0x2f6fbd72, 0x344a8432,
         0xc73741ef, 0x928d99f6, 0x207dc67b, 0x8bac3051);
    Quad(r, x, 8, 0xc73741ef, 0x928d99f6, 0x207dc67b, 0x8bac3051,
         0x854b3712, 0x5ed49596, 0x3020401c, 0x74e2f284);
    Quad(r, x, 12, 0x854b3712, 0x5ed49596, 0x3020401c, 0x74e2f284,
         0xdda9b9a6, 0x72aff2e0, 0xe396856b, 0xa1051895);
  }

  lemma AbcRound2(x: seq<bv32>)
    requires AbcWords(x)
    requires Steps(INIT, x, 16) == Regs(0xdda9b9a6, 0x72aff2e0, 0xe396856b, 0xa1051895)
    ensures Steps(INIT, x, 32) == Regs(0x790a77fb, 0x726342d3, 0xa62884aa, 0x9f47e4f8)
  {
    hide Op, FF, FG, FH, FI, Steps, T, Index, Shift;
    var r := INIT;
    Constants2();
    AbcOps2();
    Quad(r, x, 16, 0xdda9b9a6, 0x72aff2e0, 0xe396856b, 0xa1051895,
         0x3e9e9126, 0xb5b204e4, 0xe25e1652, 0x4a1d804e);
    Quad(r, x, 20, 0x3e9e9126, 0xb5b204e4, 0xe25e1652, 0x4a1d804e,
         0x59a8ffda, 0x47092c07, 0xabfc7920, 0x6d002f1e);
    Quad(r, x, 24, 0x59a8ffda, 0x47092c07, 0xabfc7920, 0x6d002f1e,
         0xb7f268cf, 0x786acb8f, 0xfe1623b1, 0x09388eff);
    Quad(r, x, 28, 0xb7f268cf, 0x786acb8f, 0xfe1623b1, 0x09388eff,
         0x790a77fb, 0x726342d3, 0xa62884aa, 0x9f47e4f8);
  }

  lemma AbcRound3(x: seq<bv32>)
    requires AbcWords(x)
    requires Steps(INIT, x, 32) == Regs(0x790a77fb, 0x726342d3, 0xa62884aa, 0x9f47e4f8)
    ensures Steps(INIT, x, 48) == Regs(0x7f2e507b, 0x7beb9700, 0x8fae6399, 0x99d9679d)
  {
    hide Op, FF, FG, FH, FI, Steps, T, Index, Shift;
    var r := INIT;
    Constants3();
    AbcOps3();
    Quad(r, x, 32, 0x790a77fb, 0x726342d3, 0xa62884aa, 0x9f47e4f8,
         0xb3707ebf, 0x3b0875c7, 0x8d212ff5, 0x60127b2e);
    Quad(r, x, 36, 0xb3707ebf, 0x3b0875c7, 0x8d212ff5, 0x60127b2e,
         0x21b117b9, 0x5a2f5ea5, 0x3575227e, 0x6e7429d5);
    Quad(r, x, 40, 0x21b117b9, 0x5a2f5ea5, 0x3575227e, 0x6e7429d5,
         0x11de1779, 0x4c6124f4, 0x31c465ca, 0xfadcaa38);
    Quad(r, x, 44, 0x11de1779, 0x4c6124f4, 0x31c465ca, 0xfadcaa38,
         0x7f2e507b, 0x7beb9700, 0x8fae6399, 0x99d9679d);
  }

  lemma AbcRound4(x: seq<bv32>)
    requires AbcWords(x)
    requires Steps(INIT, x, 48) == Regs(0x7f2e507b, 0x7beb9700, 0x8fae6399, 0x99d9679d)
    ensures Steps(INIT, x, 64) == Regs(0x310ade8f, 0xc08226b3, 0xe484b9d8, 0x624d8cb2)
  {
    hide Op, FF, FG, FH, FI, Steps, T, Index, Shift;
    var r := INIT;
    Constants4();
    AbcOps4();
    Quad(r, x, 48, 0x7f2e507b, 0x7beb9700, 0x8fae6399, 0x99d9679d,
         0x7b201df8, 0x8bf025c4, 0xb298cefd, 0xf4e8e96e);
    Quad(r, x, 52, 0x7b201df8, 0x8bf025c4, 0xb298cefd, 0xf4e8e96e,
         0x06cc5e8a, 0x3bfa2c27, 0x7d632dd0, 0x5b0d97aa);
    Quad(r, x, 56, 0x06cc5e8a, 0x3bfa2c27, 0x7d632dd0, 0x5b0d97aa,
         0x7f81cc35, 0x7327d604, 0x4f9dbe3f, 0x094454ab);
    Quad(r, x, 60, 0x7f81cc35, 0x7327d604, 0x4f9dbe3f, 0x094454ab,
         0x310ade8f, 0xc08226b3, 0xe484b9d8, 0x624d8cb2);
  }

  lemma AbcSums()
    ensures Plus(0x310ade8f, 0x67452301) == 0x98500190
    ensures Plus(0xc08226b3, 0xefcdab89) == 0xb04fd23c
    ensures Plus(0xe484b9d8, 0x98badcfe) == 0x7d3f96d6
    ensures Plus(0x624d8cb2, 0x10325476) == 0x727fe128
  {
  }

  lemma AbcCompress(x: seq<bv32>)
    requires AbcWords(x)
    ensures Compress(INIT, x) == Regs(0x98500190, 0xb04fd23c, 0x7d3f96d6, 0x727fe128)
  {
    hide Steps, Plus;
    AbcRound1(x);
    AbcRound2(x);
    AbcRound3(x);
    AbcRound4(x);
    AbcSums();
  }

  lemma AbcPadding()
    ensures Padding(3) == [0x80] + Zeros(52) + [24, 0, 0, 0, 0, 0, 0, 0]
  {
    hide Little;
    LittlePair(24, 0);
    OctetsOf(24, 24, 0, 0, 0);
    OctetsOf(0, 0, 0, 0, 0);
  }

  lemma AbcNumbers()
    ensures AsWord(0) == 0
    ensures AsWord(0x00000018) == 0x00000018
    ensures AsWord(0x80636261) == 0x80636261
  {
  }

  lemma AbcEdges(block: Data)
    requires block == [0x61, 0x62, 0x63, 0x80] + Zeros(52) + [0x18, 0, 0, 0, 0, 0, 0, 0]
    ensures |block| == 64
    ensures Words(block)[0] == 0x80636261
    ensures Words(block)[14] == 0x00000018
    ensures Words(block)[15] == 0
  {
    hide Words, AsWord;
    AbcNumbers();
    var head: Data, tail: Data := [0x61, 0x62, 0x63, 0x80], [0x18, 0, 0, 0, 0, 0, 0, 0];
    Places(head, tail, block, 0);
    Places(head, tail, block, 1);
    Places(head, tail, block, 2);
    Places(head, tail, block, 3);
    WordOf(block, 0, 0x61, 0x62, 0x63, 0x80, 0x80636261);
    Places(head, tail, block, 56);
    Places(head, tail, block, 57);
    Places(head, tail, block, 58);
    Places(head, tail, block, 59);
    WordOf(block, 14, 0x18, 0, 0, 0, 0x00000018);
    Places(head, tail, block, 60);
    Places(head, tail, block, 61);
    Places(head, tail, block, 62);
    Places(head, tail, block, 63);
    WordOf(block, 15, 0, 0, 0, 0, 0);
  }

  lemma AbcBlock(block: Data)
    requires block == [0x61, 0x62, 0x63, 0x80] + Zeros(52) + [0x18, 0, 0, 0, 0, 0, 0, 0]
    ensures |block| == 64 && AbcWords(Words(block))
  {
    hide Words;
    AbcEdges(block);
    var head: Data, tail: Data := [0x61, 0x62, 0x63, 0x80], [0x18, 0, 0, 0, 0, 0, 0, 0];
    ZeroWord(head, tail, block, 1);
    ZeroWord(head, tail, block, 2);
    ZeroWord(head, tail, block, 3);
    ZeroWord(head, tail, block, 4);
    ZeroWord(head, tail, block, 5);
    ZeroWord(head, tail, block, 6);
    ZeroWord(head, tail, block, 7);
    ZeroWord(head, tail, block, 8);
    ZeroWord(head, tail, block, 9);
    ZeroWord(head, tail, block, 10);
    ZeroWord(head, tail, block, 11);
    ZeroWord(head, tail, block, 12);
    ZeroWord(head, tail, block, 13);
  }

  lemma AbcOutput()
    ensures Output(Regs(0x98500190, 0xb04fd23c, 0x7d3f96d6, 0x727fe128)) ==
      [0x90, 0x01, 0x50, 0x98, 0x3c, 0xd2, 0x4f, 0xb0,
       0xd6, 0x96, 0x3f, 0x7d, 0x28, 0xe1, 0x7f, 0x72]
  {
    hide Little;
    OctetsOf(0x98500190, 0x90, 0x01, 0x50, 0x98);
    OctetsOf(0xb04fd23c, 0x3c, 0xd2, 0x4f, 0xb0);
    OctetsOf(0x7d3f96d6, 0xd6, 0x96, 0x3f, 0x7d);
    OctetsOf(0x727fe128, 0x28, 0xe1, 0x7f, 0x72);
  }

  // MD5 ("abc") = 900150983cd24fb0d6963f7d28e17f72
  lemma DigestAbc()
    ensures MD5([0x61, 0x62, 0x63]) ==
      [0x90, 0x01, 0x50, 0x98, 0x3c, 0xd2, 0x4f, 0xb0,
       0xd6, 0x96, 0x3f, 0x7d, 0x28, 0xe1, 0x7f, 0x72]
  {
    hide Output, Padding, Compress, Words, Blocks;
    var whole := [0x61, 0x62, 0x63] + Padding(3);
    AbcPadding();
    assert whole == [0x61, 0x62, 0x63, 0x80] + Zeros(52) + [0x18, 0, 0, 0, 0, 0, 0, 0];
    AbcBlock(whole);
    AbcCompress(Words(whole));
    OneBlock(INIT, whole);
    AbcOutput();
  }
}
